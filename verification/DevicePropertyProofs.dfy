// What the one pass means for each key, and what reading by fgets does to a file.
module DevicePropertyProofs {
  import opened Common
  import opened DeviceProperties

  // Position k holds the first record that says something for a key.
  predicate FirstToSay(records: seq<string>, key: string, k: nat) {
    k < |records| && FieldText(records[k], key) != "" &&
    forall j :: 0 <= j < k ==> FieldText(records[j], key) == ""
  }

  // A lookup gives a value exactly when it is that of the first such record, and
  // nothing exactly when no record says anything.
  lemma {:induction false} LookupIsFirst(records: seq<string>, key: string, value: string)
    requires value != ""
    ensures Lookup(records, key) == value <==>
            exists k: nat :: FirstToSay(records, key, k) && FieldText(records[k], key) == value
    ensures Lookup(records, key) == "" <==> forall k :: 0 <= k < |records| ==> FieldText(records[k], key) == ""
  {
    if records != [] {
      var rest := records[1..];
      LookupIsFirst(rest, key, value);
      assert forall k :: 0 <= k < |rest| ==> rest[k] == records[k + 1];
      if FieldText(records[0], key) == "" {
        forall k: nat | FirstToSay(rest, key, k) ensures FirstToSay(records, key, k + 1) {
        }
        forall k: nat | FirstToSay(records, key, k) ensures k > 0 && FirstToSay(rest, key, k - 1) {
          assert forall j :: 0 <= j < k - 1 ==> rest[j] == records[j + 1];
        }
      } else {
        assert FirstToSay(records, key, 0);
      }
    }
  }

  predicate FirstToSayBuild(records: seq<string>, key: string, k: nat) {
    k < |records| && RecordBuild(records[k], key) != eUNKNOWN &&
    forall j :: 0 <= j < k ==> RecordBuild(records[j], key) == eUNKNOWN
  }

  // The same for the build type.
  lemma {:induction false} LookupBuildIsFirst(records: seq<string>, key: string, value: BuildType)
    requires value != eUNKNOWN
    ensures LookupBuild(records, key) == value <==>
            exists k: nat :: FirstToSayBuild(records, key, k) && RecordBuild(records[k], key) == value
    ensures LookupBuild(records, key) == eUNKNOWN <==>
            forall k :: 0 <= k < |records| ==> RecordBuild(records[k], key) == eUNKNOWN
  {
    if records != [] {
      var rest := records[1..];
      LookupBuildIsFirst(rest, key, value);
      assert forall k :: 0 <= k < |rest| ==> rest[k] == records[k + 1];
      if RecordBuild(records[0], key) == eUNKNOWN {
        forall k: nat | FirstToSayBuild(rest, key, k) ensures FirstToSayBuild(records, key, k + 1) {
        }
        forall k: nat | FirstToSayBuild(records, key, k) ensures k > 0 && FirstToSayBuild(rest, key, k - 1) {
          assert forall j :: 0 <= j < k - 1 ==> rest[j] == records[j + 1];
        }
      } else {
        assert FirstToSayBuild(records, key, 0);
      }
    }
  }

  // Records of the first file come before those of the second.
  lemma {:induction false} EarlierFileWins(a: seq<string>, b: seq<string>, key: string)
    ensures Lookup(a + b, key) == if Lookup(a, key) != "" then Lookup(a, key) else Lookup(b, key)
    ensures LookupBuild(a + b, key) ==
            if LookupBuild(a, key) != eUNKNOWN then LookupBuild(a, key) else LookupBuild(b, key)
  {
    if a == [] {
      assert a + b == b;
    } else {
      assert (a + b)[1..] == a[1..] + b;
      EarlierFileWins(a[1..], b, key);
    }
  }

  function WithoutSkipped(records: seq<string>): seq<string> {
    if records == [] then []
    else (if Skipped(records[0]) then [] else [records[0]]) + WithoutSkipped(records[1..])
  }

  // Comment and blank lines never change a result.
  lemma {:induction false} SkippingIsHarmless(records: seq<string>, key: string)
    requires IsKey(key)
    ensures Lookup(WithoutSkipped(records), key) == Lookup(records, key)
    ensures LookupBuild(WithoutSkipped(records), key) == LookupBuild(records, key)
  {
    if records != [] {
      SkippingIsHarmless(records[1..], key);
      if Skipped(records[0]) {
        SkippedHasNoKey(records[0], key);
        assert WithoutSkipped(records) == WithoutSkipped(records[1..]);
      } else {
        assert WithoutSkipped(records)[1..] == WithoutSkipped(records[1..]);
      }
    }
  }

  predicate SameButCase(a: string, b: string) {
    |a| == |b| && forall k :: 0 <= k < |a| ==> Upper(a[k]) == Upper(b[k])
  }

  function FirstNine(s: string): string {
    if |s| < 9 then s else s[..9]
  }

  // The build type depends on the first nine characters and not on their case, and QA
  // images count as development builds.
  lemma BuildFromFirstNine(a: string, b: string)
    requires SameButCase(FirstNine(a), FirstNine(b))
    ensures GetBuild(a) == GetBuild(b) != eQA
  {
    assert BuildBuffer(a) == BuildBuffer(b) by {
      assert forall k :: 0 <= k < |FirstNine(a)| ==> FirstNine(a)[k] == a[k];
      assert forall k :: 0 <= k < |FirstNine(b)| ==> FirstNine(b)[k] == b[k];
    }
  }

  lemma FirstIndex(s: string, c: char, k: nat)
    requires k < |s| && s[k] == c && forall j :: 0 <= j < k ==> s[j] != c
    ensures IndexOf(s, c) == k
  {
  }

  lemma NoIndexBefore(s: string, c: char, k: nat)
    requires k <= |s| && forall j :: 0 <= j < k ==> s[j] != c
    ensures IndexOf(s, c) >= k
  {
  }

  // ------------------------------------------------------------ build types

  // The word stands at k, in any case and within the first nine characters.
  predicate WordAt(s: string, word: string, k: nat) {
    && k + |word| <= |s| && k + |word| <= 9
    && forall j :: 0 <= j < |word| ==>
         var c := s[k + j];
         word[j] == if 'a' <= c <= 'z' then (c as int - 32) as char else c
  }

  predicate HasWord(s: string, word: string) {
    exists k :: 0 <= k <= |s| && WordAt(s, word, k)
  }

  lemma HasWordIff(s: string, word: string)
    ensures HasWord(s, word) <==> Contains(BuildBuffer(s), word)
  {
    var buf := BuildBuffer(s);
    forall k: nat ensures WordAt(s, word, k) <==> OccursAt(buf, word, k) {
      if k + |word| <= |buf| {
        var w := buf[k..k + |word|];
        assert forall j :: 0 <= j < |word| ==> w[j] == buf[k + j];
      }
    }
    if HasWord(s, word) {
      var k :| 0 <= k <= |s| && WordAt(s, word, k);
      assert OccursAt(buf, word, k);
    }
    if Contains(buf, word) {
      var k :| 0 <= k <= |buf| && OccursAt(buf, word, k);
      assert WordAt(s, word, k);
    }
  }

  // Production images come before VBN ones, these before development ones.
  lemma BuildIff(s: string)
    ensures var prod, vbn, dev := HasWord(s, "PROD"), HasWord(s, "VBN"), HasWord(s, "DEV") || HasWord(s, "QA");
      && (GetBuild(s) == ePROD <==> prod)
      && (GetBuild(s) == eVBN <==> vbn && !prod)
      && (GetBuild(s) == eDEV <==> dev && !vbn && !prod)
      && (GetBuild(s) == eUNKNOWN <==> !dev && !vbn && !prod)
  {
    HasWordIff(s, "PROD");
    HasWordIff(s, "VBN");
    HasWordIff(s, "DEV");
    HasWordIff(s, "QA");
  }

  // ------------------------------------------------------ reading the file

  function Join(records: seq<string>): string {
    if records == [] then "" else records[0] + Join(records[1..])
  }

  lemma {:induction false} RecordsFit(file: string)
    ensures forall k :: 0 <= k < |Records(file)| ==> 0 < |Records(file)[k]| < LINE_BUFFER
    decreases |file|
  {
    if file != "" {
      RecordsFit(file[RecordLength(file)..]);
    }
  }

  lemma FirstRecord(file: string)
    requires file != ""
    ensures var n := RecordLength(file);
      Join(Records(file)) == file[..n] + Join(Records(file[n..]))
  {
    var n, all := RecordLength(file), Records(file);
    assert all[0] == file[..n] && all[1..] == Records(file[n..]);
  }

  lemma {:induction false} RecordsJoin(file: string)
    ensures Join(Records(file)) == file
    decreases |file|
  {
    if file != "" {
      var first, rest := file[..RecordLength(file)], file[RecordLength(file)..];
      RecordsJoin(rest);
      FirstRecord(file);
      assert file == first + rest;
    }
  }

  // fgets loses nothing, and no record is empty or longer than the buffer allows.
  lemma RecordsJoinToFile(file: string)
    ensures Join(Records(file)) == file
    ensures forall k :: 0 <= k < |Records(file)| ==> 0 < |Records(file)[k]| < LINE_BUFFER
  {
    RecordsJoin(file);
    RecordsFit(file);
  }

  function LineLength(file: string): (n: nat)
    ensures n <= |file| && (file != "" ==> n > 0)
  {
    var nl := IndexOf(file, '\n');
    if nl < |file| then nl + 1 else nl
  }

  predicate LinesFit(file: string)
    decreases |file|
  {
    file == "" || (LineLength(file) < LINE_BUFFER && LinesFit(file[LineLength(file)..]))
  }

  predicate EndsLine(record: string) {
    record != "" && record[|record| - 1] == '\n'
  }

  // Each record but the last ends a line, so every record starts one.
  predicate WholeLines(records: seq<string>) {
    forall k :: 0 <= k < |records| - 1 ==> EndsLine(records[k])
  }

  lemma WholeLinesOneMore(first: string, rest: seq<string>)
    requires rest != []
    ensures WholeLines([first] + rest) <==> EndsLine(first) && WholeLines(rest)
  {
    var all := [first] + rest;
    assert all[0] == first;
    assert forall k :: 0 <= k < |rest| ==> all[k + 1] == rest[k];
    if EndsLine(first) && WholeLines(rest) {
      forall k | 0 <= k < |all| - 1 ensures EndsLine(all[k]) {
        assert k > 0 ==> all[k] == rest[k - 1];
      }
    }
  }

  // Every record starts a line exactly when every line fits the buffer; the rest of a
  // longer line is read as a record of its own.
  lemma {:induction false} RecordsAreLinesIff(file: string)
    ensures WholeLines(Records(file)) <==> LinesFit(file)
    decreases |file|
  {
    if file != "" {
      var n := RecordLength(file);
      var rest := file[n..];
      RecordsAreLinesIff(rest);
      if rest != "" {
        assert Records(rest) != [];
        WholeLinesOneMore(file[..n], Records(rest));
        RecordEndsLineIff(file);
      }
    }
  }

  lemma RecordEndsLineIff(file: string)
    requires RecordLength(file) < |file|
    ensures EndsLine(file[..RecordLength(file)]) <==> LineLength(file) < LINE_BUFFER
    ensures LineLength(file) < LINE_BUFFER ==> LineLength(file) == RecordLength(file)
  {
  }

  // A line that fills the buffer without ending leaves its rest to be read as a record.
  lemma LongLineLeavesRest(start: string, rest: string)
    requires |start| == 1023 && '\n' !in start && rest != ""
    ensures Records(start + rest) == [start] + Records(rest) && !LinesFit(start + rest)
  {
    var file := start + rest;
    NoIndexBefore(file, '\n', |start|);
    assert RecordLength(file) == LINE_BUFFER - 1;
    assert file[..LINE_BUFFER - 1] == start && file[LINE_BUFFER - 1..] == rest;
  }

  lemma ShortLineIsRecord(line: string)
    requires 0 < |line| <= 1023 && line[|line| - 1] == '\n' && '\n' !in line[..|line| - 1]
    ensures Records(line) == [line]
  {
    assert forall j :: 0 <= j < |line| - 1 ==> line[j] == line[..|line| - 1][j];
    FirstIndex(line, '\n', |line| - 1);
    assert line[..|line|] == line && line[|line|..] == "";
  }

  // A record that starts with the key gives the text behind it up to the newline, in at
  // most 31 characters; any other record gives nothing.
  lemma KeyThenText(key: string, text: string, ending: string)
    requires '\n' !in text && (ending == "" || ending[0] == '\n')
    ensures FieldText(key + text + ending, key) == if |text| <= 31 then text else text[..31]
  {
    var rest := (key + text + ending)[|key|..];
    assert rest == text + ending;
    if ending == "" {
      NoIndexBefore(rest, '\n', |text|);
    } else {
      FirstIndex(rest, '\n', |text|);
    }
    assert rest[..|text|] == text;
  }

  lemma OtherRecordSaysNothing(record: string, key: string)
    requires |record| < |key| || record[..|key|] != key
    ensures FieldText(record, key) == "" && RecordBuild(record, key) == eUNKNOWN
  {
  }

  // So the rest of one line sets a property, wherever the line itself says nothing.
  lemma LongLineSetsProperty(start: string, key: string, text: string)
    requires |start| == 1023 && '\n' !in start && !(key <= start)
    requires '\n' !in key && '\n' !in text && 0 < |text| < FIELD_SIZE && |key| < 64
    ensures Lookup(Records(start + (key + text + "\n")), key) == text
  {
    var rest := key + text + "\n";
    LongLineLeavesRest(start, rest);
    assert rest[..|rest| - 1] == key + text;
    ShortLineIsRecord(rest);
    KeyThenText(key, text, "\n");
    LookupSecond(start, rest, key);
  }

  lemma LookupSecond(first: string, second: string, key: string)
    requires FieldText(first, key) == ""
    ensures Lookup([first] + [second], key) == FieldText(second, key)
  {
    assert ([first] + [second])[1..] == [second] && [second][1..] == [];
    assert Lookup([second], key) == FieldText(second, key);
  }

  // Such a line exists for the model number.
  function BufferOf(c: char): string {
    seq(LINE_BUFFER - 1, _ => c)
  }

  lemma LongLineExample(text: string)
    requires '\n' !in text && 0 < |text| < FIELD_SIZE
    ensures Lookup(Records(BufferOf('x') + ("MODEL_NUM=" + text + "\n")), "MODEL_NUM=") == text
  {
    var start, key := BufferOf('x'), "MODEL_NUM=";
    assert start[0] != key[0];
    LongLineSetsProperty(start, key, text);
  }

  // ------------------------------------------------------------ the struct

  lemma FirstKeys()
    ensures PROP_NAMES[0] == "BUILD_TYPE=" && PROP_NAMES[1] == "DEVICE_NAME=" && PROP_NAMES[2] == "DEVICE_TYPE="
    ensures PROP_NAMES[3] == "DIFW_PATH=" && PROP_NAMES[4] == "LOG_PATH="
  {
  }

  lemma LastKeys()
    ensures PROP_NAMES[5] == "PERSISTENT_PATH=" && PROP_NAMES[6] == "ENABLE_MAINTENANCE="
    ensures PROP_NAMES[7] == "FORCE_MTLS=" && PROP_NAMES[8] == "MODEL_NUM="
    ensures PROP_NAMES[9] == "ENABLE_SOFTWARE_OPTOUT="
  {
  }

  // The text members of the struct, in its order, and the key of each.
  datatype Member =
    dev_name | dev_type | difw_path | log_path | persistent_path | maint_status | mtls | model | sw_optout

  function PlaceOf(m: Member): (k: nat)
    ensures k < 9
  {
    match m
    case dev_name => 0
    case dev_type => 1
    case difw_path => 2
    case log_path => 3
    case persistent_path => 4
    case maint_status => 5
    case mtls => 6
    case model => 7
    case sw_optout => 8
  }

  function KeyOf(m: Member): string {
    match m
    case dev_name => "DEVICE_NAME="
    case dev_type => "DEVICE_TYPE="
    case difw_path => "DIFW_PATH="
    case log_path => "LOG_PATH="
    case persistent_path => "PERSISTENT_PATH="
    case maint_status => "ENABLE_MAINTENANCE="
    case mtls => "FORCE_MTLS="
    case model => "MODEL_NUM="
    case sw_optout => "ENABLE_SOFTWARE_OPTOUT="
  }

  lemma KeyInTable(m: Member)
    ensures PROP_NAMES[PlaceOf(m) + 1] == KeyOf(m)
  {
    FirstKeys();
    LastKeys();
  }

  // Every member holds what the lookup of its own key gives.
  lemma MemberFromItsKey(build: BuildType, fields: seq<string>, records: seq<string>, m: Member)
    requires Agree(build, fields, PROP_NAMES, records)
    ensures |fields| == 9 && fields[PlaceOf(m)] == Lookup(records, KeyOf(m))
    ensures build == LookupBuild(records, "BUILD_TYPE=")
  {
    FirstKeys();
    KeyInTable(m);
    assert 1 <= PlaceOf(m) + 1 < KEY_COUNT;
  }

  predicate StartsWithProd(text: string) {
    |text| >= 4 && (text[0] == 'p' || text[0] == 'P') && (text[1] == 'r' || text[1] == 'R') &&
    (text[2] == 'o' || text[2] == 'O') && (text[3] == 'd' || text[3] == 'D')
  }

  lemma ProdIsProduction(text: string)
    requires StartsWithProd(text)
    ensures GetBuild(text) == ePROD
  {
    var word := "PROD";
    forall j | 0 <= j < 4
      ensures word[j] == if 'a' <= text[0 + j] <= 'z' then (text[0 + j] as int - 32) as char else text[0 + j]
    {
    }
    assert WordAt(text, word, 0);
    BuildIff(text);
  }

  // The first line for the build type decides it, whatever case it is written in.
  lemma ProductionLine(build: BuildType, fields: seq<string>, before: seq<string>, text: string, behind: seq<string>)
    requires Agree(build, fields, PROP_NAMES, before + ["BUILD_TYPE=" + text] + behind)
    requires forall k :: 0 <= k < |before| ==> !("BUILD_TYPE=" <= before[k])
    requires StartsWithProd(text)
    ensures build == ePROD
  {
    FirstKeys();
    ProdIsProduction(text);
    FirstBuildLine("BUILD_TYPE=", before, text, behind);
  }

  lemma {:induction false} FirstBuildLine(key: string, before: seq<string>, text: string, behind: seq<string>)
    requires forall k :: 0 <= k < |before| ==> !(key <= before[k])
    requires GetBuild(text) != eUNKNOWN
    ensures LookupBuild(before + [key + text] + behind, key) == GetBuild(text)
    decreases |before|
  {
    var records := before + [key + text] + behind;
    if before == [] {
      assert (key + text)[|key|..] == text && records[0] == key + text;
    } else {
      assert records[1..] == before[1..] + [key + text] + behind;
      FirstBuildLine(key, before[1..], text, behind);
    }
  }

  // The records of two files, in the order the files are tried.
  lemma FilesInOrder(first: string, second: string)
    ensures AllRecords([Some(first), Some(second)]) == Records(first) + Records(second)
    ensures AllRecords([None, Some(second)]) == Records(second)
    ensures AllRecords([Some(first), None]) == Records(first)
  {
    TwoFiles(Some(first), Some(second));
    TwoFiles(None, Some(second));
    TwoFiles(Some(first), None);
  }

  lemma TwoFiles(a: Option<string>, b: Option<string>)
    ensures AllRecords([a, b]) == RecordsOf(a) + RecordsOf(b)
  {
    assert [a, b][..1] == [a] && [a][..0] == [];
    assert AllRecords([a]) == [] + RecordsOf(a);
  }
}
