// getDeviceProperties of utils/rdk_fwdl_utils.c: one pass over the records of two
// property files, with a table of keys.
module DeviceProperties {
  import opened Common

  datatype BuildType = eUNKNOWN | eDEV | eVBN | ePROD | eQA

  const LINE_BUFFER: nat := 1024
  const FIELD_SIZE: nat := 32
  const BUILD_BUFFER: nat := 10
  const KEY_COUNT: nat := 10

  // Key 0 is the build type; the others name the text fields in order.
  const PROP_NAMES: seq<string> := [
    "BUILD_TYPE=", "DEVICE_NAME=", "DEVICE_TYPE=", "DIFW_PATH=", "LOG_PATH=", "PERSISTENT_PATH=",
    "ENABLE_MAINTENANCE=", "FORCE_MTLS=", "MODEL_NUM=", "ENABLE_SOFTWARE_OPTOUT="]

  // ------------------------------------------------------------------ text

  function IndexOf(s: string, c: char): (k: nat)
    ensures k <= |s|
    ensures forall j :: 0 <= j < k ==> s[j] != c
    ensures k < |s| ==> s[k] == c
  {
    if s == "" || s[0] == c then 0 else 1 + IndexOf(s[1..], c)
  }

  function Upper(c: char): char {
    if 'a' <= c <= 'z' then (c as int - 32) as char else c
  }

  // getbuild on a zero-filled buffer: the first nine characters in upper case.
  function BuildBuffer(s: string): string {
    var n := if |s| < BUILD_BUFFER - 1 then |s| else BUILD_BUFFER - 1;
    seq(n, k requires 0 <= k < n => Upper(s[k]))
  }

  function GetBuild(s: string): BuildType {
    var buf := BuildBuffer(s);
    if Contains(buf, "PROD") then ePROD
    else if Contains(buf, "VBN") then eVBN
    else if Contains(buf, "DEV") then eDEV
    else if Contains(buf, "QA") then eDEV
    else eUNKNOWN
  }

  // --------------------------------------------------------------- records

  // One fgets: up to a newline, but never more than the buffer holds.
  function RecordLength(file: string): (n: nat)
    ensures n <= |file| && (file != "" ==> n > 0)
  {
    var nl := IndexOf(file, '\n');
    var line := if nl < |file| then nl + 1 else nl;
    if line < LINE_BUFFER then line else LINE_BUFFER - 1
  }

  // What the fgets calls return, in order, on a file without NUL bytes.
  function Records(file: string): seq<string>
    decreases |file|
  {
    if file == "" then [] else [file[..RecordLength(file)]] + Records(file[RecordLength(file)..])
  }

  // A missing file gives no records.
  function RecordsOf(file: Option<string>): seq<string> {
    match file
    case None => []
    case Some(text) => Records(text)
  }

  // What a record says for a field: nothing unless the key is at its very start, else
  // the text after the key up to the newline, in as many characters as the field has.
  function FieldText(record: string, key: string): (r: string)
    ensures |r| < FIELD_SIZE && '\n' !in r
  {
    if key <= record then
      var rest := record[|key|..];
      var line := rest[..IndexOf(rest, '\n')];
      if |line| < FIELD_SIZE then line else line[..FIELD_SIZE - 1]
    else ""
  }

  function RecordBuild(record: string, key: string): BuildType {
    if key <= record then GetBuild(record[|key|..]) else eUNKNOWN
  }

  // A lookup of one key on its own: the first record that says something.
  function Lookup(records: seq<string>, key: string): string {
    if records == [] then ""
    else
      var first := FieldText(records[0], key);
      if first != "" then first else Lookup(records[1..], key)
  }

  function LookupBuild(records: seq<string>, key: string): BuildType {
    if records == [] then eUNKNOWN
    else
      var first := RecordBuild(records[0], key);
      if first != eUNKNOWN then first else LookupBuild(records[1..], key)
  }

  // ------------------------------------------------------------ the struct

  class DeviceProperty {
    var eBuildType: BuildType
    var fields: seq<string>   // the text members, in the order of their keys

    constructor ()
    {
      eBuildType := eUNKNOWN;
      fields := [];
    }
  }

  // Every member holds what the lookup of its own key gives.
  ghost predicate Holds(d: DeviceProperty, names: seq<string>, records: seq<string>)
    requires |names| == KEY_COUNT
    reads d
  {
    Agree(d.eBuildType, d.fields, names, records)
  }

  predicate Agree(build: BuildType, fields: seq<string>, names: seq<string>, records: seq<string>)
    requires |names| == KEY_COUNT
  {
    && build == LookupBuild(records, names[0])
    && |fields| == KEY_COUNT - 1
    && forall i :: 1 <= i < KEY_COUNT ==> fields[i - 1] == Lookup(records, names[i])
  }

  // ----------------------------------------------------------------- the keys

  // A key has its only '=' at its end, and starts with a capital letter.
  predicate IsKey(key: string) {
    key != "" && key[|key| - 1] == '=' && 'A' <= key[0] <= 'Z' &&
    forall j :: 0 <= j < |key| - 1 ==> key[j] != '='
  }

  predicate KeyTable(names: seq<string>) {
    && |names| == KEY_COUNT
    && (forall i :: 0 <= i < |names| ==> IsKey(names[i]))
    && (forall i, j :: 0 <= i < j < |names| ==> names[i] != names[j])
  }

  lemma FirstKeysAreKeys()
    ensures IsKey(PROP_NAMES[0]) && IsKey(PROP_NAMES[1]) && IsKey(PROP_NAMES[2])
    ensures IsKey(PROP_NAMES[3]) && IsKey(PROP_NAMES[4])
  {
  }

  lemma LastKeysAreKeys()
    ensures IsKey(PROP_NAMES[5]) && IsKey(PROP_NAMES[6]) && IsKey(PROP_NAMES[7])
    ensures IsKey(PROP_NAMES[8]) && IsKey(PROP_NAMES[9])
  {
  }

  lemma KeysDiffer(i: nat, j: nat)
    requires i < j < KEY_COUNT
    ensures PROP_NAMES[i] != PROP_NAMES[j]
  {
  }

  // The program's ten keys are such a table.
  lemma PropNamesAreKeys()
    ensures KeyTable(PROP_NAMES)
  {
    FirstKeysAreKeys();
    LastKeysAreKeys();
    forall i, j | 0 <= i < j < |PROP_NAMES| ensures PROP_NAMES[i] != PROP_NAMES[j] {
      KeysDiffer(i, j);
    }
  }

  // The value of a record starts after its first '=' when it starts with a key.
  lemma KeyEndsAtEquals(record: string, key: string)
    requires IsKey(key) && key <= record
    ensures IndexOf(record, '=') == |key| - 1
  {
  }

  // So a record starts with at most one key.
  lemma OneKeyPerRecord(record: string, a: string, b: string)
    requires IsKey(a) && IsKey(b) && a <= record && b <= record
    ensures a == b
  {
  }

  lemma {:induction false} LookupOneMore(records: seq<string>, r: string, key: string)
    ensures Lookup(records + [r], key) ==
            if Lookup(records, key) != "" then Lookup(records, key) else FieldText(r, key)
  {
    if records != [] {
      assert (records + [r])[1..] == records[1..] + [r];
      LookupOneMore(records[1..], r, key);
    }
  }

  lemma {:induction false} LookupBuildOneMore(records: seq<string>, r: string, key: string)
    ensures LookupBuild(records + [r], key) ==
            if LookupBuild(records, key) != eUNKNOWN then LookupBuild(records, key) else RecordBuild(r, key)
  {
    if records != [] {
      assert (records + [r])[1..] == records[1..] + [r];
      LookupBuildOneMore(records[1..], r, key);
    }
  }

  // What a record must do to the struct: empty members take what it says.
  ghost predicate Updated(before: seq<string>, after: seq<string>, names: seq<string>, record: string)
    requires |names| == KEY_COUNT
  {
    |before| == |after| == KEY_COUNT - 1 &&
    forall i :: 1 <= i < KEY_COUNT ==>
      after[i - 1] == if before[i - 1] != "" then before[i - 1] else FieldText(record, names[i])
  }

  lemma UpdateAgrees(build: BuildType, before: seq<string>, after: seq<string>, names: seq<string>,
                     records: seq<string>, record: string)
    requires |names| == KEY_COUNT && Agree(build, before, names, records)
    requires Updated(before, after, names, record)
    ensures Agree(if build != eUNKNOWN then build else RecordBuild(record, names[0]), after, names, records + [record])
  {
    LookupBuildOneMore(records, record, names[0]);
    forall i | 1 <= i < KEY_COUNT ensures after[i - 1] == Lookup(records + [record], names[i]) {
      LookupOneMore(records, record, names[i]);
    }
  }

  // --------------------------------------------------------------- the code

  predicate IsBlank(c: char) {
    c == ' ' || c == '\t'
  }

  // A comment line, or one with nothing but blanks.
  predicate Skipped(record: string) {
    if record == "" then true
    else if IsBlank(record[0]) then Skipped(record[1..])
    else record[0] == '#'
  }

  // The scan over leading blanks.
  method SkipBlanks(buf: string) returns (skip: bool)
    ensures skip == Skipped(buf)
  {
    var pTmp := 0;
    while pTmp < |buf| && IsBlank(buf[pTmp])
      invariant pTmp <= |buf|
      invariant Skipped(buf) == Skipped(buf[pTmp..])
    {
      pTmp := pTmp + 1;
    }
    return pTmp == |buf| || buf[pTmp] == '#';
  }

  // snprintf into the field, then the cut at the newline.
  method FillField(buf: string, key: string) returns (field: string)
    requires IsKey(key) && key <= buf
    ensures field == FieldText(buf, key)
  {
    KeyEndsAtEquals(buf, key);
    var text := buf[IndexOf(buf, '=') + 1..];
    field := if |text| < FIELD_SIZE then text else text[..FIELD_SIZE - 1];
    CutThenFit(text);
    var nl := IndexOf(field, '\n');
    field := field[..nl];
  }

  // Cutting at the newline and at the field size can be done in either order.
  lemma CutThenFit(text: string)
    ensures var field := if |text| < FIELD_SIZE then text else text[..FIELD_SIZE - 1];
      var line := text[..IndexOf(text, '\n')];
      field[..IndexOf(field, '\n')] == if |line| < FIELD_SIZE then line else line[..FIELD_SIZE - 1]
  {
  }

  // getbuild: the copy to the buffer and the search in it.
  method ReadBuild(pBldStr: string) returns (build: BuildType)
    ensures build == GetBuild(pBldStr)
  {
    var buf := "";
    var i := BUILD_BUFFER - 1;
    while |buf| < |pBldStr| && i > 0
      invariant 0 <= i && |buf| + i == BUILD_BUFFER - 1 && |buf| <= |pBldStr|
      invariant forall k :: 0 <= k < |buf| ==> buf[k] == Upper(pBldStr[k])
    {
      i := i - 1;
      buf := buf + [Upper(pBldStr[|buf|])];
    }
    assert buf == BuildBuffer(pBldStr);
    if Contains(buf, "PROD") {
      return ePROD;
    } else if Contains(buf, "VBN") {
      return eVBN;
    } else if Contains(buf, "DEV") || Contains(buf, "QA") {
      return eDEV;
    } else {
      return eUNKNOWN;
    }
  }

  // The loop over the keys, on one record.
  method ApplyRecord(d: DeviceProperty, names: seq<string>, buf: string)
    requires KeyTable(names) && |d.fields| == KEY_COUNT - 1
    modifies d
    ensures Updated(old(d.fields), d.fields, names, buf)
    ensures d.eBuildType ==
            if old(d.eBuildType) != eUNKNOWN then old(d.eBuildType) else RecordBuild(buf, names[0])
  {
    var i := 0;
    while i < KEY_COUNT
      invariant i <= KEY_COUNT && d.fields == old(d.fields) && d.eBuildType == old(d.eBuildType)
      invariant i > 0 ==> d.eBuildType != eUNKNOWN || !(names[0] <= buf)
      invariant forall j :: 1 <= j < i ==> d.fields[j - 1] != "" || !(names[j] <= buf)
    {
      var empty := if i == 0 then d.eBuildType == eUNKNOWN else d.fields[i - 1] == "";
      if empty && names[i] <= buf {
        forall j | 0 <= j < KEY_COUNT && names[j] <= buf ensures j == i {
          OneKeyPerRecord(buf, names[i], names[j]);
        }
        if i == 0 {
          KeyEndsAtEquals(buf, names[0]);
          var build := ReadBuild(buf[IndexOf(buf, '=') + 1..]);
          d.eBuildType := build;
        } else {
          var field := FillField(buf, names[i]);
          d.fields := d.fields[i - 1 := field];
        }
        return;
      }
      i := i + 1;
    }
  }

  lemma SkippedHasNoKey(record: string, key: string)
    requires IsKey(key) && Skipped(record)
    ensures !(key <= record)
  {
  }

  function AllRecords(files: seq<Option<string>>): seq<string> {
    if files == [] then [] else AllRecords(files[..|files| - 1]) + RecordsOf(files[|files| - 1])
  }

  // The loop over the records of one file.
  method ReadFile(d: DeviceProperty, names: seq<string>, file: string, ghost before: seq<string>)
    requires KeyTable(names) && Holds(d, names, before)
    modifies d
    ensures Holds(d, names, before + Records(file))
  {
    var rest := file;
    ghost var done := before;
    while rest != ""
      invariant Holds(d, names, done) && done + Records(rest) == before + Records(file)
      decreases |rest|
    {
      var buf := rest[..RecordLength(rest)];
      ghost var left := rest;
      rest := rest[|buf|..];
      ghost var was := done;
      done := done + [buf];
      assert was + Records(left) == done + Records(rest);
      ghost var build, fields := d.eBuildType, d.fields;
      var skip := SkipBlanks(buf);
      if skip {
        forall i | 0 <= i < KEY_COUNT ensures !(names[i] <= buf) {
          SkippedHasNoKey(buf, names[i]);
        }
      } else {
        ApplyRecord(d, names, buf);
      }
      UpdateAgrees(build, fields, d.fields, names, was, buf);
    }
    assert done + [] == done;
  }

  // getDeviceProperties; files are the contents of the property files in the order they
  // are tried, and device may be missing (NULL).
  method GetDeviceProperties(device: DeviceProperty?, files: seq<Option<string>>) returns (ret: int)
    modifies device
    ensures ret == if device == null then -1 else 1
    ensures device != null ==> Holds(device, PROP_NAMES, AllRecords(files))
  {
    if device == null {
      return -1;
    }
    PropNamesAreKeys();
    device.eBuildType := eUNKNOWN;
    device.fields := seq(KEY_COUNT - 1, _ => "");
    for a := 0 to |files|
      invariant Holds(device, PROP_NAMES, AllRecords(files[..a]))
    {
      assert files[..a + 1][..a] == files[..a];
      match files[a] {
        case Some(text) => ReadFile(device, PROP_NAMES, text, AllRecords(files[..a]));
        case None => assert AllRecords(files[..a]) + [] == AllRecords(files[..a]);
      }
    }
    assert files[..|files|] == files;
    return 1;
  }
}
