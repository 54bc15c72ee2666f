// Properties of the name search, the joined text and the trimmed numbers.
module JsonJoinProofs {
  import opened Common
  import opened JsonJoin

  // ----------------------------------------------------------- repeat calls

  lemma SanitisedIsStable(s: string)
    ensures ValidName(Sanitised(s))
    ensures Sanitised(Sanitised(s)) == Sanitised(s)
    ensures Sanitised(s) == s <==> ValidName(s)
  {
  }

  // A call may have rewritten any of the names; the next call finds the same texts.
  lemma {:induction false} RepeatFindsTheSame(before: seq<View>, after: seq<View>, wanted: string)
    requires |before| == |after|
    requires forall k :: 0 <= k < |before| ==> SameOrSanitised(before[k], after[k])
    ensures MatchTexts(after, wanted) == MatchTexts(before, wanted)
  {
    if before != [] {
      var n := |before| - 1;
      RepeatFindsTheSame(before[..n], after[..n], wanted);
      assert SameOrSanitised(before[n], after[n]);
      SanitisedIsStable(before[n].name);
    }
  }

  // Two calls in a row on one object leave the same text and return the same length.
  method CallTwice(json: seq<JsonItem>, wanted: string, first: array<char>, second: array<char>, maxlen: nat)
    returns (len1: nat, len2: nat)
    requires first != second && first.Length == second.Length == maxlen > 0
    requires AllDistinct(json)
    requires forall k: nat :: k < |json| ==> Printable(json[k].value)
    modifies first, second, json
    ensures len1 == len2
    ensures exists text :: HoldsText(first, text) && HoldsText(second, text)
  {
    ghost var before := ViewsOf(json);
    len1 := GetJsonValContaining(Some(json), Some(wanted), first, maxlen);
    ghost var between := ViewsOf(json);
    RepeatFindsTheSame(before, between, wanted);
    len2 := GetJsonValContaining(Some(json), Some(wanted), second, maxlen);
    ghost var texts := if wanted == "" then [] else MatchTexts(before, wanted);
    assert HoldsText(first, Cut(Ideal(texts), maxlen)) && HoldsText(second, Cut(Ideal(texts), maxlen));
  }

  // -------------------------------------------------------- the joined text

  predicate CommaFree(s: string) {
    ',' !in s
  }

  // The non-empty pieces between commas.
  function Fields(s: string): seq<string> {
    FieldsBefore(s, "")
  }

  // The pieces of s + piece, where piece holds no comma.
  function FieldsBefore(s: string, piece: string): seq<string> {
    if s == "" then (if piece == "" then [] else [piece])
    else
      var n := |s| - 1;
      if s[n] == ',' then FieldsBefore(s[..n], "") + (if piece == "" then [] else [piece])
      else FieldsBefore(s[..n], [s[n]] + piece)
  }

  function NonEmpty(texts: seq<string>): seq<string> {
    if texts == [] then []
    else
      var n := |texts| - 1;
      NonEmpty(texts[..n]) + (if texts[n] == "" then [] else [texts[n]])
  }

  lemma {:induction false} FieldsSkipPiece(s: string, a: string, b: string)
    requires CommaFree(a)
    ensures FieldsBefore(s + a, b) == FieldsBefore(s, a + b)
    decreases |a|
  {
    if a == "" {
      assert s + a == s && a + b == b;
    } else {
      var n := |a| - 1;
      assert (s + a)[..|s + a| - 1] == s + a[..n];
      assert [a[n]] + b == a[n..] + b;
      FieldsSkipPiece(s, a[..n], [a[n]] + b);
      assert a[..n] + ([a[n]] + b) == a + b;
    }
  }

  lemma FieldsAfterComma(s: string, text: string)
    requires CommaFree(text)
    ensures Fields(s + "," + text) == Fields(s) + (if text == "" then [] else [text])
  {
    FieldsSkipPiece(s + ",", text, "");
    assert text + "" == text && (s + ",")[..|s|] == s;
  }

  lemma FieldsAfterEmpty(s: string, text: string)
    requires CommaFree(text) && (s == "" || s[|s| - 1] == ',')
    ensures Fields(s + text) == Fields(s) + (if text == "" then [] else [text])
  {
    FieldsSkipPiece(s, text, "");
    assert text + "" == text;
    if s != "" {
      assert FieldsBefore(s, text) == FieldsBefore(s[..|s| - 1], "") + (if text == "" then [] else [text]);
      assert FieldsBefore(s, "") == FieldsBefore(s[..|s| - 1], "") + [];
    }
  }

  lemma {:induction false} IdealEnd(texts: seq<string>)
    requires LastLength(texts) == 0
    ensures Ideal(texts) == "" || Ideal(texts)[|Ideal(texts)| - 1] == ','
    decreases |texts|
  {
    if texts != [] {
      var front := texts[..|texts| - 1];
      if LastLength(front) == 0 {
        IdealEnd(front);
        assert Ideal(texts) == Ideal(front) + "" + "";
      }
    }
  }

  lemma {:induction false} PiecesHoldNoComma(s: string, piece: string)
    requires CommaFree(piece)
    ensures forall k :: 0 <= k < |FieldsBefore(s, piece)| ==> CommaFree(FieldsBefore(s, piece)[k])
    decreases |s|
  {
    if s != "" {
      var n := |s| - 1;
      PiecesHoldNoComma(s[..n], if s[n] == ',' then "" else [s[n]] + piece);
    }
  }

  lemma {:induction false} NonEmptyKeeps(texts: seq<string>, k: nat)
    requires k < |texts| && texts[k] != ""
    ensures texts[k] in NonEmpty(texts)
  {
    if k < |texts| - 1 {
      NonEmptyKeeps(texts[..|texts| - 1], k);
    }
  }

  lemma {:induction false} CommaFreeSplits(texts: seq<string>)
    requires forall k :: 0 <= k < |texts| ==> CommaFree(texts[k])
    ensures Fields(Ideal(texts)) == NonEmpty(texts)
  {
    if texts != [] {
      var n := |texts| - 1;
      var front := texts[..n];
      CommaFreeSplits(front);
      if LastLength(front) > 0 {
        FieldsAfterComma(Ideal(front), texts[n]);
      } else {
        IdealEnd(front);
        FieldsAfterEmpty(Ideal(front), texts[n]);
        assert Ideal(texts) == Ideal(front) + texts[n];
      }
    }
  }

  // Splitting the joined text at its commas gives back the non-empty values exactly when
  // none of them holds a comma.
  lemma JoinThenSplit(texts: seq<string>)
    ensures Fields(Ideal(texts)) == NonEmpty(texts) <==> forall k :: 0 <= k < |texts| ==> CommaFree(texts[k])
  {
    if Fields(Ideal(texts)) == NonEmpty(texts) {
      PiecesHoldNoComma(Ideal(texts), "");
      forall k | 0 <= k < |texts| ensures CommaFree(texts[k]) {
        if texts[k] != "" {
          NonEmptyKeeps(texts, k);
        }
      }
    }
    if forall k :: 0 <= k < |texts| ==> CommaFree(texts[k]) {
      CommaFreeSplits(texts);
    }
  }

  // The counted length below the limit is that of the copy; from the limit on something
  // other than a separator is missing.
  lemma {:induction false} LengthSoFar(texts: seq<string>, maxlen: nat)
    requires maxlen > 0
    ensures var len, all := CountedLength(texts, maxlen), Ideal(texts);
      && (len < maxlen ==> len == |Cut(all, maxlen)| && (|all| < maxlen || OnlySeparatorMissing(texts, maxlen)))
      && (len >= maxlen ==> |all| > maxlen || (|all| == maxlen && LastLength(texts) > 0))
  {
    if texts != [] {
      var front, text := texts[..|texts| - 1], texts[|texts| - 1];
      assert texts == front + [text];
      LengthSoFar(front, maxlen);
      OneMoreText(front, text, maxlen);
      if CountedLength(front, maxlen) < maxlen {
        CutOfNext(front, text, maxlen);
      }
    }
  }

  // The returned length is the number of characters in the buffer exactly when nothing
  // is missing or only a separator.
  lemma LengthIsCopiedIff(texts: seq<string>, maxlen: nat)
    requires maxlen > 0
    ensures CountedLength(texts, maxlen) == |Cut(Ideal(texts), maxlen)| <==>
            |Ideal(texts)| < maxlen || OnlySeparatorMissing(texts, maxlen)
  {
    LengthSoFar(texts, maxlen);
  }

  // The length in full: a value that still meets room adds all its characters and one for
  // a separator that fits in front of it, and behind a full buffer nothing is added.
  lemma LengthGrows(front: seq<string>, text: string, maxlen: nat)
    requires maxlen > 0
    ensures var all, len := |Ideal(front)|, CountedLength(front + [text], maxlen);
      && (all < maxlen ==>
            len == all + |text| +
                   if front != [] && front[|front| - 1] != "" && all + 2 <= maxlen then 1 else 0)
      && (CountedLength(front, maxlen) >= maxlen ==> len == CountedLength(front, maxlen))
  {
    LengthSoFar(front, maxlen);
    OneMoreText(front, text, maxlen);
  }

  // One value that does not fit: its own length is returned, whatever was copied.
  lemma LengthPastCopy(text: string, maxlen: nat)
    requires 0 < maxlen <= |text|
    ensures CountedLength([text], maxlen) == |text| > |Cut(Ideal([text]), maxlen)|
  {
    var none: seq<string> := [];
    assert [text] == none + [text];
    OneMoreText(none, text, maxlen);
  }

  // The one case in which a truncated text is not reported: "ab" and an empty value in
  // a buffer of three characters lose the separator, and the length says two.
  lemma TruncationUnreported()
    ensures var texts := ["ab", ""];
      && OnlySeparatorMissing(texts, 3) && Ideal(texts) == "ab," && Cut(Ideal(texts), 3) == "ab"
      && CountedLength(texts, 3) == 2
  {
    var one := ["ab"];
    assert one[..0] == [] && ["ab", ""][..1] == one;
    assert Ideal(one) == "ab" && LastLength(one) == 2 && CountedLength(one, 3) == 2;
    assert Ideal(["ab", ""]) == "ab" + "," + "";
  }

  // -------------------------------------------------------- trimmed numbers

  predicate Digits(s: string) {
    forall k :: 0 <= k < |s| ==> '0' <= s[k] <= '9'
  }

  // What "%f" prints: an optional minus, digits, a point and six digits.
  predicate PrintedNumber(s: string) {
    var body := Unsigned(s);
    |body| >= 8 && body[|body| - 7] == '.' && Digits(body[..|body| - 7]) && Digits(body[|body| - 6..])
  }

  function Unsigned(s: string): string {
    if s != "" && s[0] == '-' then s[1..] else s
  }

  function Digit(c: char): real
    requires '0' <= c <= '9'
  {
    (c as int - '0' as int) as real
  }

  function Whole(s: string): real
    requires Digits(s)
  {
    if s == "" then 0.0 else 10.0 * Whole(s[..|s| - 1]) + Digit(s[|s| - 1])
  }

  function Fraction(s: string): real
    requires Digits(s)
  {
    if s == "" then 0.0 else (Digit(s[0]) + Fraction(s[1..])) / 10.0
  }

  // Where the point is, or the end.
  function Point(s: string): (p: nat)
    ensures p <= |s|
    ensures forall k :: 0 <= k < p ==> s[k] != '.'
    ensures p < |s| ==> s[p] == '.'
  {
    if s == "" || s[0] == '.' then 0 else 1 + Point(s[1..])
  }

  // The sign and the digits on the two sides of the point.
  datatype Parts = Parts(negative: bool, whole: string, frac: string)

  function Parsed(s: string): Parts {
    var body := Unsigned(s);
    var p := Point(body);
    Parts(body != s, body[..p], if p < |body| then body[p + 1..] else "")
  }

  predicate Numeric(n: Parts) {
    Digits(n.whole) && Digits(n.frac)
  }

  function Amount(n: Parts): real
    requires Numeric(n)
  {
    var size := Whole(n.whole) + Fraction(n.frac);
    if n.negative then -size else size
  }

  predicate IsDecimal(s: string) {
    Numeric(Parsed(s))
  }

  // The number a decimal text denotes.
  function Denoted(s: string): real
    requires IsDecimal(s)
  {
    Amount(Parsed(s))
  }

  lemma {:induction false} FractionZero(s: string)
    requires Digits(s)
    ensures Fraction(s + "0") == Fraction(s)
  {
    if s == "" {
      assert ("" + "0")[1..] == "";
    } else {
      assert (s + "0")[1..] == s[1..] + "0";
      FractionZero(s[1..]);
    }
  }

  lemma {:induction false} PointIs(s: string, p: nat)
    requires p <= |s| && (forall k :: 0 <= k < p ==> s[k] != '.') && (p < |s| ==> s[p] == '.')
    ensures Point(s) == p
  {
  }

  lemma UnsignedParts(head: string, rest: string)
    requires head != ""
    ensures Unsigned(head + rest) == Unsigned(head) + rest
    ensures Unsigned(head + rest) == head + rest <==> Unsigned(head) == head
  {
  }

  lemma PointParts(h: string, frac: string)
    requires Digits(h)
    ensures var body := h + "." + frac;
      Point(body) == |h| && body[..|h|] == h && body[|h| + 1..] == frac
    ensures Point(h) == |h| && h[..|h|] == h
  {
    PointIs(h + "." + frac, |h|);
    PointIs(h, |h|);
  }

  lemma ParsedParts(head: string, frac: string)
    requires Unsigned(head) != "" && Digits(Unsigned(head))
    ensures Parsed(head + "." + frac) == Parts(Unsigned(head) != head, Unsigned(head), frac)
    ensures Parsed(head) == Parts(Unsigned(head) != head, Unsigned(head), "")
  {
    var h := Unsigned(head);
    UnsignedParts(head, "." + frac);
    assert head + ("." + frac) == head + "." + frac;
    assert h + ("." + frac) == h + "." + frac;
    PointParts(h, frac);
  }

  lemma {:induction false} ZerosGo(head: string, frac: string) returns (kept: string)
    requires head != "" && Digits(frac)
    ensures kept <= frac && WithoutZeros(head + "." + frac) == head + "." + kept
    ensures Fraction(kept) == Fraction(frac)
    ensures kept == "" || kept[|kept| - 1] != '0'
    decreases |frac|
  {
    var s := head + "." + frac;
    if frac == "" || frac[|frac| - 1] != '0' {
      kept := frac;
    } else {
      var shorter := frac[..|frac| - 1];
      assert frac == shorter + "0";
      FractionZero(shorter);
      assert s[..|s| - 1] == head + "." + shorter;
      kept := ZerosGo(head, shorter);
    }
  }

  // The two sides of the point of a printed number.
  predicate NumberParts(head: string, frac: string) {
    head != "" && Unsigned(head) != "" && Digits(Unsigned(head)) && Digits(frac)
  }

  lemma PrintedParts(s: string)
    requires PrintedNumber(s)
    ensures var head, frac := s[..|s| - 7], s[|s| - 6..];
      s == head + "." + frac && NumberParts(head, frac)
  {
    var head, frac, body := s[..|s| - 7], s[|s| - 6..], Unsigned(s);
    assert Unsigned(head) == body[..|body| - 7];
    assert frac == body[|body| - 6..];
    assert s == s[..|s| - 7] + [s[|s| - 7]] + s[|s| - 6..];
  }

  lemma HeadEndsInDigit(head: string, frac: string)
    requires NumberParts(head, frac)
    ensures '0' <= head[|head| - 1] <= '9'
  {
  }

  // The trimmed text is the part before the point, or that with the kept digits.
  lemma TrimmedParts(head: string, frac: string) returns (kept: string)
    requires NumberParts(head, frac)
    ensures kept <= frac && Fraction(kept) == Fraction(frac)
    ensures Trimmed(head + "." + frac) == if kept == "" then head else head + "." + kept
    ensures kept == "" || kept[|kept| - 1] != '0'
  {
    HeadEndsInDigit(head, frac);
    kept := ZerosGo(head, frac);
    var t := head + "." + kept;
    if kept == "" {
      assert t[..|t| - 1] == head;
    } else {
      assert t[|t| - 1] == kept[|kept| - 1];
    }
  }

  lemma TrimPartsKeepValue(head: string, frac: string)
    requires NumberParts(head, frac)
    ensures var s := head + "." + frac;
      IsDecimal(s) && IsDecimal(Trimmed(s)) && Denoted(Trimmed(s)) == Denoted(s)
  {
    var kept := TrimmedParts(head, frac);
    SameNumber(head, frac, kept);
  }

  lemma SameNumber(head: string, frac: string, kept: string)
    requires NumberParts(head, frac) && Digits(kept) && Fraction(kept) == Fraction(frac)
    ensures var s, t := head + "." + frac, if kept == "" then head else head + "." + kept;
      IsDecimal(s) && IsDecimal(t) && Denoted(t) == Denoted(s)
  {
    ParsedParts(head, frac);
    ParsedParts(head, kept);
  }

  lemma TrimPartsShape(head: string, frac: string)
    requires NumberParts(head, frac)
    ensures var s, t := head + "." + frac, Trimmed(head + "." + frac);
      && head <= t <= s
      && t != "" && t[|t| - 1] != '.'
      && (t == head || t[|t| - 1] != '0')
  {
    HeadEndsInDigit(head, frac);
    var kept := TrimmedParts(head, frac);
    if kept != "" {
      assert (head + "." + kept)[|head| + |kept|] == kept[|kept| - 1];
      assert head + "." + frac == head + "." + kept + frac[|kept|..];
    }
  }

  // Trimming a printed number keeps its value and every digit before the point, and
  // leaves no trailing zero after it and no trailing point.
  lemma TrimKeepsValue(s: string)
    requires PrintedNumber(s)
    ensures var t, head := Trimmed(s), s[..|s| - 7];
      && IsDecimal(s) && IsDecimal(t) && Denoted(t) == Denoted(s)
      && head <= t <= s
      && t != "" && t[|t| - 1] != '.'
      && (t == head || t[|t| - 1] != '0')
  {
    var head, frac := s[..|s| - 7], s[|s| - 6..];
    PrintedParts(s);
    TrimPartsKeepValue(head, frac);
    TrimPartsShape(head, frac);
  }

  // What "%f" prints for an infinity or for no number at all is left as it is.
  lemma NonFiniteUntouched(s: string)
    requires s in ["inf", "-inf", "nan", "-nan"]
    ensures Trimmed(s) == s && !PrintedNumber(s)
  {
  }

  // ------------------------------------------------------- what is joined

  // The searched text stands in the name at k, once every character of the name that is
  // not a letter, a digit or an underscore is read as an underscore.
  predicate OccursCleaned(name: string, wanted: string, k: nat) {
    && k + |wanted| <= |name|
    && forall j :: 0 <= j < |wanted| ==>
         var c := name[k + j];
         wanted[j] == if '0' <= c <= '9' || 'A' <= c <= 'Z' || 'a' <= c <= 'z' || c == '_' then c else '_'
  }

  lemma OccursCleanedIff(name: string, wanted: string, k: nat)
    ensures OccursCleaned(name, wanted, k) <==> OccursAt(Sanitised(name), wanted, k)
  {
    var s := Sanitised(name);
    if k + |wanted| <= |name| {
      var w := s[k..k + |wanted|];
      assert forall j :: 0 <= j < |wanted| ==> w[j] == s[k + j];
      assert w == wanted <==> forall j :: 0 <= j < |wanted| ==> w[j] == wanted[j];
    }
  }

  // An item gives a text exactly when it is valid, has a name, and the searched text
  // stands anywhere in that name.
  lemma MatchIff(v: View, wanted: string)
    ensures |MatchTexts([v], wanted)| == 1 <==>
            v.valid && v.named && exists k: nat :: OccursCleaned(v.name, wanted, k)
    ensures |MatchTexts([v], wanted)| <= 1
  {
    forall k: nat ensures OccursCleaned(v.name, wanted, k) <==> OccursAt(Sanitised(v.name), wanted, k) {
      OccursCleanedIff(v.name, wanted, k);
    }
    assert Contains(Sanitised(v.name), wanted) <==> exists k: nat :: OccursCleaned(v.name, wanted, k) by {
      if k: nat :| OccursCleaned(v.name, wanted, k) {
        assert OccursAt(Sanitised(v.name), wanted, k);
      }
    }
    assert [v][..0] == [] && MatchTexts([v][..0], wanted) == [];
  }

  // The text is the string itself, the word for a truth value, nothing for an object or
  // a list, and for a number the same number without trailing zeros.
  lemma MatchedText(v: View, wanted: string)
    requires |MatchTexts([v], wanted)| == 1
    ensures var text := MatchTexts([v], wanted)[0];
      match v.value
      case Str(t) => text == t
      case Bool(truth) => text == if truth then "true" else "false"
      case Number(printed) =>
        PrintedNumber(printed) ==>
          && IsDecimal(printed) && IsDecimal(text) && Denoted(text) == Denoted(printed)
          && text != "" && text <= printed && text[|text| - 1] != '.'
          && ('.' in text ==> text[|text| - 1] != '0')
      case Other => text == ""
  {
    assert [v][..0] == [] && MatchTexts([v][..0], wanted) == [];
    if v.value.Number? && PrintedNumber(v.value.printed) {
      TrimmedNumber(v.value.printed);
    }
  }

  lemma TrimmedNumber(printed: string)
    requires PrintedNumber(printed)
    ensures var text := Trimmed(printed);
      && IsDecimal(printed) && IsDecimal(text) && Denoted(text) == Denoted(printed)
      && text != "" && text <= printed && text[|text| - 1] != '.'
      && ('.' in text ==> text[|text| - 1] != '0')
  {
    TrimKeepsValue(printed);
    HeadHasNoPoint(printed);
  }

  lemma HeadHasNoPoint(printed: string)
    requires PrintedNumber(printed)
    ensures '.' !in printed[..|printed| - 7]
  {
    var head, body := printed[..|printed| - 7], Unsigned(printed);
    forall j | 0 <= j < |head| ensures head[j] != '.' {
      if printed[0] == '-' && j > 0 {
        assert head[j] == body[..|body| - 7][j - 1];
      } else if printed[0] != '-' {
        assert head[j] == body[..|body| - 7][j];
      }
    }
  }

  // The texts come in the order of the items.
  lemma {:induction false} MatchesInOrder(a: seq<View>, b: seq<View>, wanted: string)
    ensures MatchTexts(a + b, wanted) == MatchTexts(a, wanted) + MatchTexts(b, wanted)
  {
    if b == [] {
      assert a + b == a;
    } else {
      var n := |b| - 1;
      assert (a + b)[..|a + b| - 1] == a + b[..n];
      MatchesInOrder(a, b[..n], wanted);
    }
  }

  // The copy is the front of the join, one place short of the buffer if that is longer.
  lemma CopyIsFront(texts: seq<string>, maxlen: nat)
    requires maxlen > 0
    ensures var all, copy := Ideal(texts), Cut(Ideal(texts), maxlen);
      copy == if |all| <= maxlen - 1 then all else all[..maxlen - 1]
  {
  }
}
