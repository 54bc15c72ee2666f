// The resumable download of dwnlutils/urlHelper.c: the write callback and the
// chunk loop of urlHelperDownloadFile, over an arbitrary sequence of answers.
module ChunkDownload {
  import opened Common
  import opened DecimalText

  const MAX_FAILED_ROUNDS: nat := 2
  const RANGE_BUFFER := 32

  // ---------------------------------------------------------------- the file

  // A write at pos: bytes before pos are kept (a gap reads as zeros), then data,
  // then whatever the file held further on.
  function WriteAt(contents: seq<byte>, pos: nat, data: seq<byte>): seq<byte> {
    if data == [] then contents
    else Padded(contents, pos)[..pos] + data +
         (if pos + |data| < |contents| then contents[pos + |data|..] else [])
  }

  function Padded(contents: seq<byte>, n: nat): (r: seq<byte>)
    ensures |r| >= n && contents <= r
  {
    contents + seq(if n > |contents| then n - |contents| else 0, _ => 0)
  }

  function Behind(contents: seq<byte>, n: nat): seq<byte> {
    if n < |contents| then contents[n..] else []
  }

  lemma BehindTwice(contents: seq<byte>, n: nat, k: nat)
    ensures Behind(Behind(contents, n), k) == Behind(contents, n + k)
  {
  }

  lemma WriteParts(contents: seq<byte>, pos: nat, data: seq<byte>)
    requires data != []
    ensures WriteAt(contents, pos, data) == Padded(contents, pos)[..pos] + data + Behind(contents, pos + |data|)
  {
  }

  // A write right behind the first part of a file.
  lemma WriteBehind(head: seq<byte>, tail: seq<byte>, data: seq<byte>)
    requires data != []
    ensures WriteAt(head + tail, |head|, data) == head + data + Behind(tail, |data|)
  {
    assert Padded(head + tail, |head|)[..|head|] == head;
    assert Behind(head + tail, |head| + |data|) == Behind(tail, |data|);
  }

  lemma WriteAtTwice(contents: seq<byte>, pos: nat, a: seq<byte>, b: seq<byte>)
    ensures WriteAt(WriteAt(contents, pos, a), pos + |a|, b) == WriteAt(contents, pos, a + b)
  {
    if a == [] {
      assert a + b == b;
    } else if b == [] {
      assert a + b == a;
    } else {
      var front, mid := Padded(contents, pos)[..pos], Behind(contents, pos + |a|);
      WriteParts(contents, pos, a);
      WriteBehind(front + a, mid, b);
      BehindTwice(contents, pos + |a|, |b|);
      WriteParts(contents, pos, a + b);
      assert front + a + b == front + (a + b);
    }
  }

  lemma WriteAtEffect(contents: seq<byte>, pos: nat, data: seq<byte>)
    requires pos <= |contents|
    ensures var r := WriteAt(contents, pos, data);
      && |r| == (if pos + |data| > |contents| then pos + |data| else |contents|)
      && r[..pos] == contents[..pos]
      && r[pos..pos + |data|] == data
      && r[pos + |data|..] == contents[if pos + |data| < |contents| then pos + |data| else |contents|..]
  {
  }

  // A gap before the write reads as zeros.
  lemma WriteBehindEnd(contents: seq<byte>, pos: nat, data: seq<byte>)
    requires |contents| < pos && data != []
    ensures WriteAt(contents, pos, data) == contents + seq(pos - |contents|, _ => 0) + data
  {
  }

  // A file and the position of the FILE it is open as.
  class OutputFile {
    var contents: seq<byte>
    var cursor: nat

    constructor (initial: seq<byte>)
      ensures contents == initial && cursor == 0
    {
      contents, cursor := initial, 0;
    }

    // fopen in mode "wb" (truncate) or "rb+".
    method Open(truncate: bool)
      modifies this
      ensures contents == (if truncate then [] else old(contents)) && cursor == 0
    {
      contents := if truncate then [] else contents;
      cursor := 0;
    }

    method Seek(pos: nat)
      modifies this
      ensures cursor == pos && contents == old(contents)
    {
      cursor := pos;
    }

    method Write(data: seq<byte>)
      modifies this
      ensures contents == WriteAt(old(contents), old(cursor), data)
      ensures cursor == old(cursor) + |data|
    {
      contents := WriteAt(contents, cursor, data);
      cursor := cursor + |data|;
    }
  }

  class FileDownload {
    const pvOut: OutputFile
    var datasize: nat

    constructor (out: OutputFile)
      ensures pvOut == out && datasize == 0
    {
      pvOut, datasize := out, 0;
    }
  }

  // ------------------------------------------------------------ one request

  // One call of the write callback: the bytes curl hands over, the value of
  // force_stop at that moment and how many items fwrite can still store.
  datatype Delivery = Delivery(data: seq<byte>, forceStop: int, room: nat)

  // What one curl_easy_perform does: the calls of the callback, the curl code and
  // the HTTP code.
  datatype Answer = Answer(curl: int, http: int, deliveries: seq<Delivery>)

  // What the environment contributes to one turn of the loop.
  datatype Round = Round(setopt: int, seekOk: bool, tellOk: bool, answer: Answer)

  function Taken(d: Delivery): (r: seq<byte>)
    ensures r <= d.data
  {
    if d.forceStop == 1 then []
    else if d.room < |d.data| then d.data[..d.room] else d.data
  }

  function Written(deliveries: seq<Delivery>): seq<byte> {
    if deliveries == [] then []
    else Written(deliveries[..|deliveries| - 1]) + Taken(deliveries[|deliveries| - 1])
  }

  lemma ItemBytes(items: nat, nmemb: nat, size: nat)
    requires items <= nmemb
    ensures 0 <= items * size <= nmemb * size
  {
  }

  // download_func: nmemb items of size bytes each arrive in ptr.
  method DownloadFunc(ptr: seq<byte>, size: nat, nmemb: nat, data: FileDownload, forceStop: int, room: nat)
    returns (written: nat)
    requires |ptr| == nmemb * size
    modifies data, data.pvOut
    ensures forceStop == 1 ==> written == 0
    ensures forceStop != 1 ==> written == (if room < nmemb then room else nmemb)
    ensures 0 <= written * size <= |ptr|
    ensures data.pvOut.contents == WriteAt(old(data.pvOut.contents), old(data.pvOut.cursor), ptr[..written * size])
    ensures data.pvOut.cursor == old(data.pvOut.cursor) + written * size
    ensures data.datasize == old(data.datasize) + written * size
  {
    if forceStop == 1 {
      return 0;
    }
    written := if room < nmemb then room else nmemb;
    ItemBytes(written, nmemb, size);
    data.pvOut.Write(ptr[..written * size]);
    data.datasize := data.datasize + written * size;
  }

  // One call of the callback by curl, which always passes items of one byte.
  method Deliver(data: FileDownload, d: Delivery)
    modifies data, data.pvOut
    ensures data.pvOut.contents == WriteAt(old(data.pvOut.contents), old(data.pvOut.cursor), Taken(d))
    ensures data.pvOut.cursor == old(data.pvOut.cursor) + |Taken(d)|
    ensures data.datasize == old(data.datasize) + |Taken(d)|
  {
    var written := DownloadFunc(d.data, 1, |d.data|, data, d.forceStop, d.room);
    assert d.data[..written] == Taken(d);
  }

  method DeliverAll(data: FileDownload, ds: seq<Delivery>)
    modifies data, data.pvOut
    ensures data.pvOut.contents == WriteAt(old(data.pvOut.contents), old(data.pvOut.cursor), Written(ds))
    ensures data.pvOut.cursor == old(data.pvOut.cursor) + |Written(ds)|
    ensures data.datasize == old(data.datasize) + |Written(ds)|
  {
    if ds != [] {
      var n := |ds| - 1;
      DeliverAll(data, ds[..n]);
      ghost var before, after := Written(ds[..n]), Taken(ds[n]);
      assert Written(ds) == before + after;
      WriteAtTwice(old(data.pvOut.contents), old(data.pvOut.cursor), before, after);
      Deliver(data, ds[n]);
    }
  }

  // performRequest, as far as this loop can see it.
  method PerformRequest(data: FileDownload, answer: Answer) returns (http: int, curl: int)
    modifies data, data.pvOut
    ensures http == answer.http && curl == answer.curl
    ensures data.pvOut.contents ==
            WriteAt(old(data.pvOut.contents), old(data.pvOut.cursor), Written(answer.deliveries))
    ensures data.pvOut.cursor == old(data.pvOut.cursor) + |Written(answer.deliveries)|
    ensures data.datasize == old(data.datasize) + |Written(answer.deliveries)|
  {
    DeliverAll(data, answer.deliveries);
    return answer.http, answer.curl;
  }

  // ----------------------------------------------------- the loop as a machine

  // The state at a loop head.
  datatype Progress = Progress(
    contents: seq<byte>, seekPlace: int, range: string, retry: nat, datasize: nat, http: int, curl: int)

  // Stopped carries the last state and the function's return value.
  datatype Outcome = Running(at: Progress) | Stopped(at: Progress, ret: int)

  predicate Transient(r: Round) {
    r.answer.curl == 18 || r.answer.curl == 28 || r.answer.curl == 56
  }

  predicate Fatal(r: Round) {
    r.answer.curl == 33 || r.answer.curl == 36
  }

  predicate Complete(r: Round) {
    r.answer.curl == 0 && (r.answer.http == 206 || r.answer.http == 200)
  }

  // The round gets as far as sending its request.
  predicate Requests(p: Progress, r: Round) {
    r.setopt == 0 && p.seekPlace >= 0 && r.seekOk
  }

  function Sent(r: Round): seq<byte> {
    Written(r.answer.deliveries)
  }

  function AfterRequest(p: Progress, r: Round): Progress
    requires Requests(p, r)
  {
    p.(contents := WriteAt(p.contents, p.seekPlace, Sent(r)),
       datasize := p.datasize + |Sent(r)|,
       http := r.answer.http, curl := r.answer.curl)
  }

  // One turn of the loop body.
  function Step(p: Progress, r: Round): Outcome
    requires p.retry > 0
  {
    if r.setopt != 0 then Stopped(p, r.setopt)
    else if p.seekPlace < 0 || !r.seekOk then Stopped(p.(http := 0, curl := 33), 0)
    else
      var q := AfterRequest(p, r);
      if Transient(r) then
        var place := if r.tellOk then ToInt(p.seekPlace + |Sent(r)|) else -1;
        if place < 0 then Stopped(q.(seekPlace := place, http := 0, curl := 33), 0)
        else Running(q.(seekPlace := place, range := Decimal(place) + "-"))
      else if Fatal(r) || Complete(r) then Stopped(q, q.datasize)
      else Running(q.(retry := q.retry - 1))
  }

  // The loop on the given rounds; Running means it asks for one more.
  function Run(p: Progress, rounds: seq<Round>): (o: Outcome)
    ensures o.Running? ==> o.at.retry > 0
    decreases |rounds|
  {
    if p.retry == 0 then Stopped(p, p.datasize)
    else if rounds == [] then Running(p)
    else match Step(p, rounds[0])
      case Stopped(q, ret) => Stopped(q, ret)
      case Running(q) => Run(q, rounds[1..])
  }

  function Initial(contents: seq<byte>, start: string, http: int, curl: int): Progress {
    Progress(contents, Atoi(start), start[..if |start| < RANGE_BUFFER then |start| else RANGE_BUFFER - 1],
             MAX_FAILED_ROUNDS, 0, http, curl)
  }

  // One turn of the loop body of urlHelperDownloadFile.
  method ChunkRound(data: FileDownload, r: Round, seekPlace0: int, filePtPos0: string, retry0: nat,
                    http0: int, curl0: int)
    returns (stop: bool, ret: int, seekPlace: int, filePtPos: string, retry: nat, http: int, curl: int)
    requires retry0 > 0
    modifies data, data.pvOut
    ensures var now := Progress(data.pvOut.contents, seekPlace, filePtPos, retry, data.datasize, http, curl);
      Step(Progress(old(data.pvOut.contents), seekPlace0, filePtPos0, retry0, old(data.datasize), http0, curl0), r) ==
      if stop then Stopped(now, ret) else Running(now)
  {
    seekPlace, filePtPos, retry, http, curl := seekPlace0, filePtPos0, retry0, http0, curl0;
    if r.setopt != 0 {
      return true, r.setopt, seekPlace, filePtPos, retry, http, curl;
    } else {
      if seekPlace < 0 {
        return true, 0, seekPlace, filePtPos, retry, 0, 33;
      }
      if !r.seekOk {
        return true, 0, seekPlace, filePtPos, retry, 0, 33;
      }
      data.pvOut.Seek(seekPlace);
    }
    http, curl := PerformRequest(data, r.answer);
    if curl == 18 || curl == 28 || curl == 56 {
      seekPlace := if r.tellOk then ToInt(data.pvOut.cursor) else -1;
      if seekPlace < 0 {
        return true, 0, seekPlace, filePtPos, retry, 0, 33;
      }
      filePtPos := Decimal(seekPlace) + "-";
    } else if curl == 33 || curl == 36 {
      return true, data.datasize, seekPlace, filePtPos, retry, http, curl;
    } else if curl == 0 && (http == 206 || http == 200) {
      return true, data.datasize, seekPlace, filePtPos, retry, http, curl;
    } else {
      retry := retry - 1;
    }
    return false, 0, seekPlace, filePtPos, retry, http, curl;
  }

  // The chunk branch of urlHelperDownloadFile: the environment plays the given rounds,
  // and running says that the loop would go on after the last of them.
  method ChunkLoop(data: FileDownload, start: string, rounds: seq<Round>, http0: int, curl0: int)
    returns (running: bool, ret: int, seekPlace: int, filePtPos: string, retry: nat, http: int, curl: int)
    requires data.datasize == 0
    modifies data, data.pvOut
    ensures var now := Progress(data.pvOut.contents, seekPlace, filePtPos, retry, data.datasize, http, curl);
      Run(Initial(old(data.pvOut.contents), start, http0, curl0), rounds) ==
      if running then Running(now) else Stopped(now, ret)
  {
    ghost var p0 := Initial(data.pvOut.contents, start, http0, curl0);
    retry, http, curl := MAX_FAILED_ROUNDS, http0, curl0;
    seekPlace := Atoi(start);
    filePtPos := start[..if |start| < RANGE_BUFFER then |start| else RANGE_BUFFER - 1];
    var k := 0;
    ghost var now := p0;
    while retry != 0 && k < |rounds|
      invariant k <= |rounds|
      invariant now == Progress(data.pvOut.contents, seekPlace, filePtPos, retry, data.datasize, http, curl)
      invariant Run(p0, rounds) == Run(now, rounds[k..])
      decreases |rounds| - k
    {
      var r := rounds[k];
      assert rounds[k..][0] == r && rounds[k..][1..] == rounds[k + 1..];
      k := k + 1;
      var stop;
      stop, ret, seekPlace, filePtPos, retry, http, curl :=
        ChunkRound(data, r, seekPlace, filePtPos, retry, http, curl);
      now := Progress(data.pvOut.contents, seekPlace, filePtPos, retry, data.datasize, http, curl);
      if stop {
        return false, ret, seekPlace, filePtPos, retry, http, curl;
      }
    }
    return retry != 0, data.datasize, seekPlace, filePtPos, retry, http, curl;
  }

  // What the calls before the loop answer: whether all pointer arguments are there,
  // whether the file and the header file open, and the codes of the four options.
  datatype Setup = Setup(
    args: bool, opens: bool, headerOpens: bool,
    headerFunction: int, headerData: int, writeFunction: int, writeData: int)

  // What a caller sees afterwards.
  datatype Seen = Seen(contents: seq<byte>, ret: int, http: int, curl: int)

  // The value returned before any request, if the call gets no further.
  function EarlyReturn(s: Setup, chunked: bool): Option<int> {
    if !s.args || !s.opens || (!chunked && !s.headerOpens) then Some(0)
    else if !chunked && s.headerFunction != 0 then Some(s.headerFunction)
    else if !chunked && s.headerData != 0 then Some(s.headerData)
    else if s.writeFunction != 0 then Some(s.writeFunction)
    else if s.writeData != 0 then Some(s.writeData)
    else None
  }

  // The whole call; None while the loop would still go on. Without a start position the
  // file is emptied when it opens and one request is made, answered by full.
  function Download(s: Setup, contents: seq<byte>, start: Option<string>, rounds: seq<Round>, full: Answer,
                    http: int, curl: int): Option<Seen>
  {
    var before := if s.args && s.opens && start == None then [] else contents;
    var early := EarlyReturn(s, start.Some?);
    if early.Some? then Some(Seen(before, early.value, http, curl))
    else match start
      case None => Some(Seen(Written(full.deliveries), |Written(full.deliveries)|, full.http, full.curl))
      case Some(text) =>
        var o := Run(Initial(contents, text, http, curl), rounds);
        if o.Running? then None else Some(Seen(o.at.contents, o.ret, o.at.http, o.at.curl))
  }

  // urlHelperDownloadFile; running says that the loop would go on after the last round.
  method UrlHelperDownloadFile(s: Setup, file: OutputFile, start: Option<string>, rounds: seq<Round>, full: Answer,
                               http0: int, curl0: int)
    returns (running: bool, ret: int, http: int, curl: int)
    modifies file
    ensures Download(s, old(file.contents), start, rounds, full, http0, curl0) ==
            if running then None else Some(Seen(file.contents, ret, http, curl))
  {
    running, ret, http, curl := false, 0, http0, curl0;
    if !s.args || !s.opens {
      return;
    }
    file.Open(start == None);
    if start == None {
      if !s.headerOpens {
        return;
      }
      if s.headerFunction != 0 {
        ret := s.headerFunction;
        return;
      }
      if s.headerData != 0 {
        ret := s.headerData;
        return;
      }
    }
    if s.writeFunction != 0 {
      ret := s.writeFunction;
      return;
    }
    if s.writeData != 0 {
      ret := s.writeData;
      return;
    }
    var data := new FileDownload(file);
    match start {
      case Some(text) =>
        var seekPlace, filePtPos, retry;
        running, ret, seekPlace, filePtPos, retry, http, curl := ChunkLoop(data, text, rounds, http0, curl0);
      case None =>
        http, curl := PerformRequest(data, full);
        WriteAtStart(Written(full.deliveries));
        ret := data.datasize;
    }
  }

  lemma WriteAtStart(data: seq<byte>)
    ensures WriteAt([], 0, data) == data
  {
  }
}
