// Joining the values of matching names into a bounded buffer, parsejson/json_parse.c:
// name sanitising, value text with trimmed decimals, and the join with its separators.
module JsonJoin {
  import opened Common

  const CUT_BUFFER := 50

  // Printable view of a value. Number carries what "%f" prints for it.
  datatype Value = Str(text: string) | Bool(truth: bool) | Number(printed: string) | Other

  // ------------------------------------------------------------ sanitising

  predicate ValidChar(c: char) {
    '0' <= c <= '9' || 'A' <= c <= 'Z' || 'a' <= c <= 'z' || c == '_'
  }

  predicate ValidName(s: string) {
    forall k :: 0 <= k < |s| ==> ValidChar(s[k])
  }

  function Sanitised(s: string): (r: string)
    ensures |r| == |s|
  {
    seq(|s|, k requires 0 <= k < |s| => if ValidChar(s[k]) then s[k] else '_')
  }

  // One element of the object; a name may be missing and an item may be invalid.
  class JsonItem {
    const valid: bool
    const named: bool
    const value: Value
    var name: string

    constructor (valid: bool, named: bool, name: string, value: Value)
      ensures this.valid == valid && this.named == named && this.name == name && this.value == value
    {
      this.valid, this.named, this.name, this.value := valid, named, name, value;
    }

    // convertInvalidChars, on the name in place.
    method ConvertInvalidChars()
      modifies this`name
      ensures name == Sanitised(old(name))
    {
      var k := 0;
      while k < |name|
        invariant k <= |name| == |old(name)|
        invariant forall j :: 0 <= j < k ==> name[j] == Sanitised(old(name))[j]
        invariant forall j :: k <= j < |name| ==> name[j] == old(name)[j]
      {
        var c := name[k];
        if c < '0' || ('9' < c && c < 'A') || ('Z' < c && c < 'a' && c != '_') || 'z' < c {
          name := name[k := '_'];
        }
        k := k + 1;
      }
    }
  }

  // --------------------------------------------------------------- trimming

  // The printed number without its trailing zeros, and without a trailing point.
  function WithoutZeros(s: string): string {
    if |s| > 1 && s[|s| - 1] == '0' then WithoutZeros(s[..|s| - 1]) else s
  }

  function Trimmed(s: string): string {
    var t := WithoutZeros(s);
    if t != [] && t[|t| - 1] == '.' then t[..|t| - 1] else t
  }

  // The trimming loop of getitemval, in the buffer the number was printed to.
  method TrimInPlace(cOut: array<char>, printed: nat) returns (len: nat)
    requires printed < cOut.Length && cOut[printed] == '\0'
    requires '\0' !in cOut[..printed]
    modifies cOut
    ensures len <= printed && cOut[len] == '\0'
    ensures cOut[..len] == Trimmed(old(cOut[..printed]))
  {
    var iRit := printed;
    if iRit > 0 {
      iRit := iRit - 1;
    }
    ghost var text := cOut[..printed];
    assert text[..printed] == text;
    while cOut[iRit] == '0' && iRit > 0
      invariant 0 <= iRit < cOut.Length && (printed > 0 ==> iRit < printed) && (printed == 0 ==> iRit == 0)
      invariant printed > 0 ==> WithoutZeros(text) == WithoutZeros(text[..iRit + 1])
      invariant forall k :: 0 <= k <= iRit ==> cOut[k] == old(cOut[k])
      invariant printed > 0 ==> cOut[iRit + 1] == '\0'
    {
      assert text[..iRit + 1][..iRit] == text[..iRit];
      cOut[iRit] := '\0';
      iRit := iRit - 1;
    }
    if printed == 0 {
      return 0;
    }
    assert WithoutZeros(text[..iRit + 1]) == text[..iRit + 1];
    if cOut[iRit] == '.' {
      cOut[iRit] := '\0';
      len := iRit;
    } else {
      len := iRit + 1;
    }
    assert cOut[..len] == text[..len];
  }

  // ------------------------------------------------------------ the buffer

  // The string in a buffer: what stands before the first terminator.
  ghost predicate HoldsText(buf: array<char>, text: string)
    reads buf
  {
    |text| < buf.Length && buf[..|text|] == text && buf[|text|] == '\0'
  }

  // snprintf("%s") at an offset with size bytes of room.
  method PrintAt(buf: array<char>, at: nat, size: nat, text: string) returns (len: nat)
    requires 0 < size && at + size <= buf.Length
    modifies buf
    ensures len == |text|
    ensures var n := if |text| < size then |text| else size - 1;
      buf[..at] == old(buf[..at]) && buf[at..at + n] == text[..n] && buf[at + n] == '\0'
    ensures forall k :: at + size <= k < buf.Length ==> buf[k] == old(buf[k])
  {
    var n := if |text| < size then |text| else size - 1;
    forall k | 0 <= k < n {
      buf[at + k] := text[k];
    }
    buf[at + n] := '\0';
    return |text|;
  }

  function ItemText(v: Value): string {
    match v
    case Str(text) => text
    case Bool(truth) => if truth then "true" else "false"
    case Number(printed) => Trimmed(printed)
    case Other => ""
  }

  predicate Printable(v: Value) {
    match v
    case Str(text) => '\0' !in text
    case Number(printed) => |printed| < CUT_BUFFER && '\0' !in printed
    case _ => true
  }

  // getitemval into the buffer at an offset.
  method GetItemVal(v: Value, buf: array<char>, at: nat, size: nat) returns (len: nat)
    requires Printable(v) && 0 < size && at + size <= buf.Length
    modifies buf
    ensures len == |ItemText(v)|
    ensures var n := if len < size then len else size - 1;
      buf[..at] == old(buf[..at]) && buf[at..at + n] == ItemText(v)[..n] && buf[at + n] == '\0'
    ensures forall k :: at + size <= k < buf.Length ==> buf[k] == old(buf[k])
  {
    match v {
      case Str(text) => len := PrintAt(buf, at, size, text);
      case Bool(truth) => len := PrintAt(buf, at, size, if truth then "true" else "false");
      case Number(printed) =>
        var cOut := new char[CUT_BUFFER](k => '\0');
        forall k | 0 <= k < |printed| {
          cOut[k] := printed[k];
        }
        assert cOut[..|printed|] == printed;
        var n := TrimInPlace(cOut, |printed|);
        len := PrintAt(buf, at, size, cOut[..n]);
      case Other =>
        buf[at] := '\0';
        len := 0;
    }
  }

  // ------------------------------------------------------------- the ideal

  // An item as the search sees it.
  datatype View = View(valid: bool, named: bool, name: string, value: Value)

  predicate IsMatch(v: View, wanted: string) {
    v.valid && v.named && Contains(Sanitised(v.name), wanted)
  }

  // The texts of the matching values, in order.
  function MatchTexts(views: seq<View>, wanted: string): seq<string> {
    if views == [] then []
    else
      var n := |views| - 1;
      var front := MatchTexts(views[..n], wanted);
      if IsMatch(views[n], wanted) then front + [ItemText(views[n].value)] else front
  }

  function LastLength(texts: seq<string>): nat {
    if texts == [] then 0 else |texts[|texts| - 1]|
  }

  // All texts joined: a comma after each non-empty one that is followed by another.
  function Ideal(texts: seq<string>): string {
    if texts == [] then []
    else
      var n := |texts| - 1;
      Ideal(texts[..n]) + (if LastLength(texts[..n]) > 0 then "," else "") + texts[n]
  }

  function Cut(s: string, maxlen: nat): string
    requires maxlen > 0
  {
    if |s| < maxlen then s else s[..maxlen - 1]
  }

  // The only way truncation escapes the returned length: all that is missing is a
  // separator with nothing but empty texts after it.
  predicate OnlySeparatorMissing(texts: seq<string>, maxlen: nat) {
    |Ideal(texts)| == maxlen && texts != [] && LastLength(texts) == 0
  }

  // The length counted on the way: once it reaches the limit nothing is added, and a
  // separator needs room for one more character.
  function CountedLength(texts: seq<string>, maxlen: nat): nat {
    if texts == [] then 0
    else
      var n := |texts| - 1;
      var r := CountedLength(texts[..n], maxlen);
      if r >= maxlen then r
      else r + (if LastLength(texts[..n]) > 0 && r + 2 <= maxlen then 1 else 0) + |texts[n]|
  }

  // Between two items, while the loop goes on.
  ghost predicate Joining(buf: array<char>, maxlen: nat, texts: seq<string>, len: nat, i: nat)
    reads buf
  {
    && 0 < maxlen <= buf.Length && len < maxlen
    && HoldsText(buf, Cut(Ideal(texts), maxlen)) && |Cut(Ideal(texts), maxlen)| == len
    && i == LastLength(texts) && len == CountedLength(texts, maxlen)
    && (|Ideal(texts)| < maxlen || OnlySeparatorMissing(texts, maxlen))
  }

  // After the loop was left because the buffer is full.
  ghost predicate Overflowed(buf: array<char>, maxlen: nat, texts: seq<string>, len: nat)
    reads buf
  {
    && 0 < maxlen <= buf.Length && len >= maxlen
    && |Ideal(texts)| >= maxlen && HoldsText(buf, Cut(Ideal(texts), maxlen))
    && LastLength(texts) > 0 && len == CountedLength(texts, maxlen)
  }

  lemma OneMoreText(texts: seq<string>, text: string, maxlen: nat)
    ensures LastLength(texts + [text]) == |text|
    ensures Ideal(texts + [text]) == Ideal(texts) + (if LastLength(texts) > 0 then "," else "") + text
    ensures var r := CountedLength(texts, maxlen);
      CountedLength(texts + [text], maxlen) ==
      if r >= maxlen then r else r + (if LastLength(texts) > 0 && r + 2 <= maxlen then 1 else 0) + |text|
  {
  }

  // The next text goes where there is room, after a separator if there is room for both.
  function NextPrefix(texts: seq<string>, maxlen: nat): string
    requires maxlen > 0
  {
    var shown := Cut(Ideal(texts), maxlen);
    shown + if LastLength(texts) > 0 && |shown| + 2 <= maxlen then "," else ""
  }

  lemma CutOfNext(texts: seq<string>, text: string, maxlen: nat)
    requires 0 < maxlen && (|Ideal(texts)| < maxlen || OnlySeparatorMissing(texts, maxlen))
    ensures var prefix, all := NextPrefix(texts, maxlen), texts + [text];
      var room := maxlen - |prefix|;
      && room > 0
      && Cut(Ideal(all), maxlen) == prefix + text[..if |text| < room then |text| else room - 1]
      && (|text| < room ==> |Ideal(all)| < maxlen || OnlySeparatorMissing(all, maxlen))
      && (|text| >= room ==> |Ideal(all)| >= maxlen && |text| > 0)
  {
  }

  lemma TextInBuffer(buf: array<char>, at: nat, n: nat, a: string, b: string)
    requires at + n < buf.Length && buf[..at] == a && buf[at..at + n] == b && buf[at + n] == '\0'
    ensures HoldsText(buf, a + b)
  {
  }

  // getitemval behind a prefix of the given length.
  method GetItemAfter(v: Value, buf: array<char>, at: nat, size: nat, ghost prefix: string) returns (len: nat)
    requires Printable(v) && 0 < size && at + size <= buf.Length && buf[..at] == prefix
    modifies buf
    ensures len == |ItemText(v)|
    ensures HoldsText(buf, prefix + ItemText(v)[..if len < size then len else size - 1])
    ensures forall k :: at + size <= k < buf.Length ==> buf[k] == old(buf[k])
  {
    len := GetItemVal(v, buf, at, size);
    ghost var n := if len < size then len else size - 1;
    TextInBuffer(buf, at, n, prefix, ItemText(v)[..n]);
  }

  // The separator before a value, when the last value was not empty and there is room.
  method PutSeparator(buf: array<char>, maxlen: nat, ghost texts: seq<string>, len0: nat, i: nat) returns (len: nat)
    requires Joining(buf, maxlen, texts, len0, i)
    modifies buf
    ensures len == |NextPrefix(texts, maxlen)| < maxlen
    ensures len == len0 + (if LastLength(texts) > 0 && len0 + 2 <= maxlen then 1 else 0)
    ensures buf[..len] == NextPrefix(texts, maxlen)
    ensures forall k :: maxlen <= k < buf.Length ==> buf[k] == old(buf[k])
  {
    len := len0;
    var remSpace := maxlen - len;
    if i != 0 && remSpace >= 2 {
      buf[len] := ',';
      len := len + 1;
    }
  }

  // The body of the loop for one matching value.
  method JoinValue(buf: array<char>, maxlen: nat, ghost texts: seq<string>, v: Value, len0: nat, i0: nat)
    returns (len: nat, i: nat)
    requires Printable(v) && Joining(buf, maxlen, texts, len0, i0)
    modifies buf
    ensures if len < maxlen then Joining(buf, maxlen, texts + [ItemText(v)], len, i)
            else Overflowed(buf, maxlen, texts + [ItemText(v)], len)
    ensures forall k :: maxlen <= k < buf.Length ==> buf[k] == old(buf[k])
  {
    len := PutSeparator(buf, maxlen, texts, len0, i0);
    i := i0;
    var remSpace := maxlen - len;
    ghost var prefix, text := NextPrefix(texts, maxlen), ItemText(v);
    OneMoreText(texts, text, maxlen);
    CutOfNext(texts, text, maxlen);
    if remSpace > 0 {
      i := GetItemAfter(v, buf, len, remSpace, prefix);
      len := len + i;
    }
  }

  // What comes after a full buffer only makes the ideal longer.
  lemma {:induction false} IdealGrows(views: seq<View>, k: nat, wanted: string)
    requires k <= |views|
    ensures var a, b := MatchTexts(views[..k], wanted), MatchTexts(views, wanted);
      && a <= b && Ideal(a) <= Ideal(b)
      && (LastLength(a) > 0 && |a| < |b| ==> |Ideal(a)| < |Ideal(b)|)
    decreases |views|
  {
    if k == |views| {
      assert views[..k] == views;
    } else {
      var n := |views| - 1;
      var front := views[..n];
      assert front[..k] == views[..k];
      IdealGrows(front, k, wanted);
      var f := MatchTexts(front, wanted);
      if IsMatch(views[n], wanted) {
        assert (f + [ItemText(views[n].value)])[..|f|] == f;
      }
    }
  }

  lemma {:induction false} CountStops(views: seq<View>, k: nat, wanted: string, maxlen: nat)
    requires k <= |views|
    requires CountedLength(MatchTexts(views[..k], wanted), maxlen) >= maxlen
    ensures CountedLength(MatchTexts(views, wanted), maxlen) ==
            CountedLength(MatchTexts(views[..k], wanted), maxlen)
    decreases |views|
  {
    if k == |views| {
      assert views[..k] == views;
    } else {
      var front := views[..|views| - 1];
      assert front[..k] == views[..k];
      CountStops(front, k, wanted, maxlen);
      var f := MatchTexts(front, wanted);
      OneMoreText(f, ItemText(views[|views| - 1].value), maxlen);
    }
  }

  lemma OverflowIsFinal(buf: array<char>, maxlen: nat, views: seq<View>, k: nat, wanted: string, len: nat)
    requires k <= |views| && Overflowed(buf, maxlen, MatchTexts(views[..k], wanted), len)
    ensures var texts := MatchTexts(views, wanted);
      && |Ideal(texts)| >= maxlen && HoldsText(buf, Cut(Ideal(texts), maxlen))
      && !OnlySeparatorMissing(texts, maxlen)
      && len == CountedLength(texts, maxlen)
  {
    CountStops(views, k, wanted, maxlen);
    IdealGrows(views, k, wanted);
    var a, b := MatchTexts(views[..k], wanted), MatchTexts(views, wanted);
    assert Cut(Ideal(a), maxlen) == Cut(Ideal(b), maxlen);
    if |a| == |b| {
      assert a == b;
    }
  }

  ghost function ViewOf(item: JsonItem): View
    reads item
  {
    View(item.valid, item.named, item.name, item.value)
  }

  ghost function ViewsOf(items: seq<JsonItem>): (views: seq<View>)
    reads items
    ensures |views| == |items|
  {
    seq(|items|, k requires 0 <= k < |items| reads items => ViewOf(items[k]))
  }

  // The name of an item is as it was, or sanitised.
  predicate SameOrSanitised(before: View, after: View) {
    after == before || after == before.(name := Sanitised(before.name))
  }

  // What a call leaves in the buffer and returns for the given matching texts.
  ghost predicate JoinResult(buf: array<char>, maxlen: nat, texts: seq<string>, len: nat)
    requires maxlen > 0
    reads buf
  {
    && HoldsText(buf, Cut(Ideal(texts), maxlen))
    && len == CountedLength(texts, maxlen)
    && (|Ideal(texts)| < maxlen ==> len == |Ideal(texts)|)
    && (|Ideal(texts)| >= maxlen ==> len >= maxlen - 1)
    && (|Ideal(texts)| >= maxlen ==> (len < maxlen <==> OnlySeparatorMissing(texts, maxlen)))
  }

  // After k items: names up to there may be sanitised, the others are as they were.
  ghost predicate NamesAfter(items: seq<JsonItem>, views: seq<View>, k: nat)
    requires |items| == |views|
    reads items
  {
    && (forall j :: k <= j < |items| ==> ViewOf(items[j]) == views[j])
    && (forall j :: 0 <= j < k && j < |items| ==> SameOrSanitised(views[j], ViewOf(items[j])))
  }

  predicate AllDistinct(items: seq<JsonItem>) {
    forall j, k :: 0 <= j < k < |items| ==> items[j] != items[k]
  }

  // The name of the next item is sanitised if it has one.
  method VisitName(items: seq<JsonItem>, ghost views: seq<View>, k: nat, wanted: string) returns (isMatch: bool)
    requires k < |items| == |views| && AllDistinct(items) && NamesAfter(items, views, k)
    modifies items[k]
    ensures NamesAfter(items, views, k + 1)
    ensures isMatch == IsMatch(views[k], wanted)
  {
    var item := items[k];
    assert ViewOf(item) == views[k];
    if item.valid && item.named {
      item.ConvertInvalidChars();
      isMatch := Contains(item.name, wanted);
    } else {
      isMatch := false;
    }
  }

  lemma MatchTextsStep(views: seq<View>, k: nat, wanted: string)
    requires k < |views|
    ensures var texts := MatchTexts(views[..k], wanted);
      MatchTexts(views[..k + 1], wanted) ==
      if IsMatch(views[k], wanted) then texts + [ItemText(views[k].value)] else texts
  {
    assert views[..k + 1][..k] == views[..k];
  }

  // One turn of the loop over the items.
  method JoinItem(items: seq<JsonItem>, ghost views: seq<View>, k: nat, wanted: string,
                  buf: array<char>, maxlen: nat, len0: nat, i0: nat)
    returns (len: nat, i: nat)
    requires k < |items| == |views| && AllDistinct(items) && NamesAfter(items, views, k)
    requires Printable(items[k].value)
    requires Joining(buf, maxlen, MatchTexts(views[..k], wanted), len0, i0)
    modifies buf, items[k]
    ensures NamesAfter(items, views, k + 1)
    ensures if len < maxlen then Joining(buf, maxlen, MatchTexts(views[..k + 1], wanted), len, i)
            else Overflowed(buf, maxlen, MatchTexts(views[..k + 1], wanted), len)
    ensures forall j :: maxlen <= j < buf.Length ==> buf[j] == old(buf[j])
  {
    len, i := len0, i0;
    MatchTextsStep(views, k, wanted);
    assert ViewOf(items[k]) == views[k];
    var isMatch := VisitName(items, views, k, wanted);
    if isMatch {
      len, i := JoinValue(buf, maxlen, MatchTexts(views[..k], wanted), items[k].value, len, i);
    }
  }

  // The loop over the items.
  method JoinMatching(items: seq<JsonItem>, wanted: string, buf: array<char>, maxlen: nat) returns (len: nat)
    requires 0 < maxlen <= buf.Length && HoldsText(buf, "")
    requires AllDistinct(items)
    requires forall k: nat :: k < |items| ==> Printable(items[k].value)
    modifies buf, items
    ensures JoinResult(buf, maxlen, MatchTexts(old(ViewsOf(items)), wanted), len)
    ensures NamesAfter(items, old(ViewsOf(items)), |items|)
    ensures forall k :: maxlen <= k < buf.Length ==> buf[k] == old(buf[k])
  {
    len := 0;
    ghost var views := ViewsOf(items);
    var i := 0;
    var k := 0;
    while k < |items|
      invariant k <= |items|
      invariant NamesAfter(items, views, k)
      invariant Joining(buf, maxlen, MatchTexts(views[..k], wanted), len, i)
      invariant forall j :: maxlen <= j < buf.Length ==> buf[j] == old(buf[j])
    {
      len, i := JoinItem(items, views, k, wanted, buf, maxlen, len, i);
      k := k + 1;
      if len >= maxlen {
        OverflowIsFinal(buf, maxlen, views, k, wanted, len);
        return;
      }
    }
    assert views[..k] == views;
  }

  // GetJsonValContaining; json and valToGet may be missing (NULL).
  method GetJsonValContaining(json: Option<seq<JsonItem>>, valToGet: Option<string>, buf: array?<char>, maxlen: nat)
    returns (len: nat)
    requires buf != null ==> maxlen <= buf.Length
    requires json.Some? ==> AllDistinct(json.value)
    requires json.Some? ==> forall k: nat :: k < |json.value| ==> Printable(json.value[k].value)
    modifies buf, if json.Some? then json.value else []
    ensures buf == null || maxlen == 0 ==> len == 0
    ensures buf != null && maxlen > 0 ==>
      var texts := if json.None? || valToGet.None? || valToGet.value == "" then []
                   else MatchTexts(old(ViewsOf(json.value)), valToGet.value);
      JoinResult(buf, maxlen, texts, len)
    ensures buf != null && maxlen > 0 ==> forall k :: maxlen <= k < buf.Length ==> buf[k] == old(buf[k])
    ensures json.Some? ==> NamesAfter(json.value, old(ViewsOf(json.value)), |json.value|)
  {
    len := 0;
    if buf == null || maxlen == 0 {
      return;
    }
    buf[0] := '\0';
    if json.None? || valToGet.None? || valToGet.value == "" {
      return;
    }
    len := JoinMatching(json.value, valToGet.value, buf, maxlen);
  }
}
