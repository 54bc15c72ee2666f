// The growing memory buffer of dwnlutils/urlHelper.c: its allocation, the write
// callback, and a download whose header and body go to two different buffers.
module MemorySink {
  import opened Common

  // One call of the callback; grant says whether realloc would find memory.
  datatype Chunk = Chunk(data: seq<byte>, grant: bool)

  // The header callback and the body callback may come in any order.
  datatype Event = Header(chunk: Chunk) | Body(chunk: Chunk)

  // What a buffer holds: its data and its capacity.
  datatype Contents = Contents(data: seq<byte>, capacity: nat)

  // The chunk is stored: it fits with its terminator, or the buffer can grow.
  predicate Accepted(c: Contents, chunk: Chunk) {
    |c.data| + |chunk.data| < c.capacity || chunk.grant
  }

  // A stored chunk is appended; a buffer that grows grows to the exact size.
  function Appended(c: Contents, chunk: Chunk): Contents {
    if !Accepted(c, chunk) then c
    else Contents(c.data + chunk.data,
                  if |c.data| + |chunk.data| < c.capacity then c.capacity else |c.data| + |chunk.data| + 1)
  }

  function AppendedAll(c: Contents, chunks: seq<Chunk>): Contents {
    if chunks == [] then c else Appended(AppendedAll(c, chunks[..|chunks| - 1]), chunks[|chunks| - 1])
  }

  class MemoryDownload {
    var pvOut: array?<byte>
    var datasize: nat
    var memsize: nat

    // Either nothing was ever allocated, or the data is followed by a terminator
    // inside an allocation of memsize bytes.
    ghost predicate Valid()
      reads this, pvOut
    {
      if pvOut == null then memsize == 0 && datasize == 0
      else pvOut.Length == memsize && datasize < memsize && pvOut[datasize] == 0
    }

    ghost function View(): Contents
      requires Valid()
      reads this, pvOut
    {
      Contents(if pvOut == null then [] else pvOut[..datasize], memsize)
    }

    constructor ()
      ensures Valid() && View() == Contents([], 0) && pvOut == null
    {
      pvOut, datasize, memsize := null, 0, 0;
    }
  }

  // allocDowndLoadDataMem; mallocOk says whether malloc gives memory, which it does only
  // for a positive size.
  method AllocDownloadDataMem(pDwnData: MemoryDownload?, szDataSize: int, mallocOk: bool) returns (ret: int)
    requires mallocOk ==> szDataSize > 0
    modifies pDwnData
    ensures ret == 0 <==> pDwnData != null && mallocOk
    ensures ret == 0 || ret == 1
    ensures pDwnData != null ==>
      && pDwnData.Valid()
      && pDwnData.View() == Contents([], if mallocOk then szDataSize else 0)
      && (mallocOk ==> pDwnData.pvOut != null && fresh(pDwnData.pvOut))
  {
    ret := 1;
    if pDwnData != null {
      pDwnData.datasize := 0;
      if mallocOk {
        var ptr := new byte[szDataSize];
        pDwnData.pvOut := ptr;
        pDwnData.memsize := szDataSize;
        ptr[0] := 0;
        ret := 0;
      } else {
        pDwnData.pvOut := null;
        pDwnData.memsize := 0;
      }
    }
  }

  // realloc keeps the old bytes and leaves the new ones undefined.
  method Realloc(old_: array?<byte>, size: nat) returns (ptr: array<byte>)
    ensures fresh(ptr) && ptr.Length == size
    ensures old_ != null ==> forall k :: 0 <= k < size && k < old_.Length ==> ptr[k] == old_[k]
  {
    ptr := new byte[size];
    if old_ != null {
      forall k | 0 <= k < size && k < old_.Length {
        ptr[k] := old_[k];
      }
    }
  }

  // WriteMemoryCB.
  method WriteMemoryCB(chunk: Chunk, pdata: MemoryDownload) returns (numBytes: nat)
    requires pdata.Valid()
    modifies pdata, pdata.pvOut
    ensures pdata.Valid()
    ensures pdata.View() == Appended(old(pdata.View()), chunk)
    ensures numBytes == if Accepted(old(pdata.View()), chunk) then |chunk.data| else 0
    ensures pdata.pvOut == old(pdata.pvOut) || fresh(pdata.pvOut)
    ensures !Accepted(old(pdata.View()), chunk) ==> pdata.pvOut == old(pdata.pvOut)
    ensures old(pdata.pvOut) != null ==> pdata.pvOut != null
  {
    numBytes := |chunk.data|;
    var ptr: array?<byte>;
    if pdata.datasize + numBytes >= pdata.memsize {
      if chunk.grant {
        ptr := Realloc(pdata.pvOut, pdata.datasize + numBytes + 1);
        pdata.memsize := pdata.datasize + numBytes + 1;
        pdata.pvOut := ptr;
      } else {
        ptr := null;
        numBytes := 0;
      }
    } else {
      ptr := pdata.pvOut;
    }
    if ptr != null {
      var at := pdata.datasize;
      forall k | 0 <= k < numBytes {
        ptr[at + k] := chunk.data[k];
      }
      pdata.datasize := pdata.datasize + numBytes;
      ptr[pdata.datasize] := 0;
      assert ptr[..at + numBytes] == old(pdata.View().data) + chunk.data;
    }
  }

  function Chunks(events: seq<Event>, header: bool): seq<Chunk> {
    if events == [] then []
    else
      var last := events[|events| - 1];
      Chunks(events[..|events| - 1], header) + (if last.Header? == header then [last.chunk] else [])
  }

  // The two buffers of one download; a download may come without a header buffer.
  ghost predicate Separate(body: MemoryDownload, header: MemoryDownload?)
    reads body, body.pvOut, header, if header == null then null else header.pvOut
  {
    && body.Valid() && body.pvOut != null
    && (header != null ==>
          header.Valid() && header.pvOut != null && header != body && header.pvOut != body.pvOut)
  }

  // curl hands one piece to the callback of its kind.
  method Deliver(e: Event, body: MemoryDownload, header: MemoryDownload?)
    requires Separate(body, header)
    modifies body, body.pvOut, header, if header == null then null else header.pvOut
    ensures Separate(body, header)
    ensures body.pvOut == old(body.pvOut) || fresh(body.pvOut)
    ensures header != null ==> header.pvOut == old(header.pvOut) || fresh(header.pvOut)
    ensures body.View() == if e.Body? then Appended(old(body.View()), e.chunk) else old(body.View())
    ensures header != null ==>
              header.View() == if e.Header? then Appended(old(header.View()), e.chunk) else old(header.View())
  {
    match e {
      case Header(chunk) =>
        if header != null {
          var _ := WriteMemoryCB(chunk, header);
        }
      case Body(chunk) =>
        var _ := WriteMemoryCB(chunk, body);
    }
  }

  lemma DeliveredOnce(c: Contents, events: seq<Event>, k: nat, header: bool)
    requires k < |events|
    ensures AppendedAll(c, Chunks(events[..k + 1], header)) ==
            if events[k].Header? == header
            then Appended(AppendedAll(c, Chunks(events[..k], header)), events[k].chunk)
            else AppendedAll(c, Chunks(events[..k], header))
  {
    assert events[..k + 1][..k] == events[..k];
    var before, after := Chunks(events[..k], header), Chunks(events[..k + 1], header);
    if events[k].Header? == header {
      assert after[..|before|] == before;
    } else {
      assert after == before;
    }
  }

  // The request of urlHelperDownloadToMem: curl hands out the events in order.
  method Request(body: MemoryDownload, header: MemoryDownload?, events: seq<Event>)
    requires Separate(body, header)
    modifies body, body.pvOut, header, if header == null then null else header.pvOut
    ensures Separate(body, header)
    ensures body.View() == AppendedAll(old(body.View()), Chunks(events, false))
    ensures header != null ==> header.View() == AppendedAll(old(header.View()), Chunks(events, true))
  {
    ghost var body0 := body.View();
    ghost var header0 := if header == null then Contents([], 0) else header.View();
    for k := 0 to |events|
      invariant Separate(body, header)
      invariant body.pvOut == old(body.pvOut) || fresh(body.pvOut)
      invariant header != null ==> header.pvOut == old(header.pvOut) || fresh(header.pvOut)
      invariant body.View() == AppendedAll(body0, Chunks(events[..k], false))
      invariant header != null ==> header.View() == AppendedAll(header0, Chunks(events[..k], true))
    {
      DeliveredOnce(body0, events, k, false);
      DeliveredOnce(header0, events, k, true);
      Deliver(events[k], body, header);
    }
    assert events[..|events|] == events;
  }

  // urlHelperDownloadToMem: both buffers are emptied, then the request runs. args says
  // whether the other pointers are there, setHeader and setBody whether the two options
  // of each callback were accepted.
  method DownloadToMem(args: bool, body: MemoryDownload?, header: MemoryDownload?, setHeader: bool, setBody: bool,
                       events: seq<Event>, httpCode: int, http0: int)
    returns (len: nat, http: int)
    requires body != null ==> Separate(body, header)
    requires !setHeader ==> Chunks(events, true) == []
    modifies body, if body == null then null else body.pvOut, header, if header == null then null else header.pvOut
    ensures !args || body == null ==>
              && len == 0 && http == http0
              && (body != null ==> Separate(body, header) && body.View() == old(body.View()))
              && (body != null && header != null ==> header.View() == old(header.View()))
    ensures args && body != null ==>
              && Separate(body, header)
              && body.View() ==
                 AppendedAll(Contents([], old(body.memsize)), if setBody then Chunks(events, false) else [])
              && len == |body.View().data|
              && http == if setBody then httpCode else 0
    ensures args && body != null && header != null ==>
              header.View() ==
              AppendedAll(Contents([], old(header.memsize)), if setBody then Chunks(events, true) else [])
  {
    len, http := 0, http0;
    if args && body != null {
      body.pvOut[0] := 0;
      body.datasize := 0;
      if header != null {
        header.pvOut[0] := 0;
        header.datasize := 0;
      }
      if setBody {
        Request(body, header, events);
        http := httpCode;
      } else {
        http := 0;
      }
      len := body.datasize;
    }
  }

  // ------------------------------------------------------------- whole runs

  function Joined(chunks: seq<Chunk>): seq<byte> {
    if chunks == [] then [] else Joined(chunks[..|chunks| - 1]) + chunks[|chunks| - 1].data
  }

  // The chunks a run stores: each judged against the buffer as it was at that moment.
  function AcceptedChunks(c: Contents, chunks: seq<Chunk>): seq<Chunk> {
    if chunks == [] then []
    else
      var n := |chunks| - 1;
      AcceptedChunks(c, chunks[..n]) +
      (if Accepted(AppendedAll(c, chunks[..n]), chunks[n]) then [chunks[n]] else [])
  }

  lemma JoinedOneMore(chunks: seq<Chunk>, c: Chunk)
    ensures Joined(chunks + [c]) == Joined(chunks) + c.data
  {
    assert (chunks + [c])[..|chunks|] == chunks;
  }

  // Over any run the data is the accepted chunks in order, and the capacity is the
  // larger of the old one and what those chunks and a terminator need.
  lemma {:induction false} RunHoldsAcceptedChunks(c: Contents, chunks: seq<Chunk>)
    requires |c.data| < c.capacity
    ensures var r := AppendedAll(c, chunks);
      && r.data == c.data + Joined(AcceptedChunks(c, chunks))
      && r.capacity == Max(c.capacity, |r.data| + 1)
      && |r.data| < r.capacity
  {
    if chunks == [] {
      assert c.data + [] == c.data;
    } else {
      var front, last := chunks[..|chunks| - 1], chunks[|chunks| - 1];
      var kept, before := AcceptedChunks(c, front), AppendedAll(c, front);
      RunHoldsAcceptedChunks(c, front);
      JoinedOneMore(kept, last);
      if Accepted(before, last) {
        assert AcceptedChunks(c, chunks) == kept + [last];
        assert c.data + Joined(kept) + last.data == c.data + (Joined(kept) + last.data);
      } else {
        assert AcceptedChunks(c, chunks) == kept;
      }
    }
  }

  // With everything before it stored, chunk k can grow the buffer or needs no growth.
  predicate Storable(c: Contents, chunks: seq<Chunk>, k: nat)
    requires k < |chunks|
  {
    var used := |c.data| + |Joined(chunks[..k])|;
    chunks[k].grant || used + |chunks[k].data| < Max(c.capacity, used + 1)
  }

  predicate AllStorable(c: Contents, chunks: seq<Chunk>) {
    forall k :: 0 <= k < |chunks| ==> Storable(c, chunks, k)
  }

  lemma AllStorableOneMore(c: Contents, front: seq<Chunk>, last: Chunk)
    ensures AllStorable(c, front + [last]) <==> AllStorable(c, front) && Storable(c, front + [last], |front|)
  {
    var chunks := front + [last];
    forall k | 0 <= k < |front| ensures Storable(c, chunks, k) == Storable(c, front, k) {
      assert chunks[..k] == front[..k];
    }
  }

  lemma {:induction false} AcceptedAtMost(c: Contents, chunks: seq<Chunk>)
    ensures |AcceptedChunks(c, chunks)| <= |chunks|
  {
    if chunks != [] {
      AcceptedAtMost(c, chunks[..|chunks| - 1]);
    }
  }

  lemma AcceptedOneMore(c: Contents, front: seq<Chunk>, last: Chunk)
    ensures AcceptedChunks(c, front + [last]) == front + [last] <==>
            AcceptedChunks(c, front) == front && Accepted(AppendedAll(c, front), last)
  {
    AcceptedAtMost(c, front);
    var chunks, kept := front + [last], AcceptedChunks(c, front);
    assert chunks[..|front|] == front;
    if AcceptedChunks(c, chunks) == chunks {
      assert kept == chunks[..|front|];
    }
  }

  // Nothing is lost exactly when every chunk for which realloc fails fits anyway.
  lemma {:induction false} NothingLostIff(c: Contents, chunks: seq<Chunk>)
    requires |c.data| < c.capacity
    ensures AcceptedChunks(c, chunks) == chunks <==> AllStorable(c, chunks)
  {
    if chunks != [] {
      var n := |chunks| - 1;
      var front, last := chunks[..n], chunks[n];
      assert chunks == front + [last] && chunks[..n] == front;
      NothingLostIff(c, front);
      AcceptedOneMore(c, front, last);
      AllStorableOneMore(c, front, last);
      RunHoldsAcceptedChunks(c, front);
    }
  }

  // One download into an emptied buffer holds the chunks it accepts, all of them exactly
  // when each can grow the buffer or fits, and the capacity never shrinks.
  predicate Refilled(capacity: nat, chunks: seq<Chunk>, after: Contents) {
    var empty := Contents([], capacity);
    && after.data == Joined(AcceptedChunks(empty, chunks))
    && after.capacity == Max(capacity, |after.data| + 1)
    && (AllStorable(empty, chunks) <==> AcceptedChunks(empty, chunks) == chunks)
    && (AllStorable(empty, chunks) ==> after.data == Joined(chunks))
  }

  lemma DownloadRefills(capacity: nat, chunks: seq<Chunk>)
    requires capacity > 0
    ensures Refilled(capacity, chunks, AppendedAll(Contents([], capacity), chunks))
  {
    var empty := Contents([], capacity);
    RunHoldsAcceptedChunks(empty, chunks);
    NothingLostIff(empty, chunks);
    assert [] + Joined(AcceptedChunks(empty, chunks)) == Joined(AcceptedChunks(empty, chunks));
  }

  // A second download into the same buffer depends on the first only through the
  // capacity, which never shrinks.
  lemma SecondDownloadHoldsSecondBody(capacity: nat, first: seq<Chunk>, second: seq<Chunk>)
    requires capacity > 0
    ensures var once := AppendedAll(Contents([], capacity), first);
      var twice := AppendedAll(Contents([], once.capacity), second);
      Refilled(once.capacity, second, twice) && capacity <= once.capacity <= twice.capacity
  {
    DownloadRefills(capacity, first);
    DownloadRefills(AppendedAll(Contents([], capacity), first).capacity, second);
  }

  // Which callback each event went to.
  function Kinds(events: seq<Event>): seq<bool> {
    if events == [] then [] else Kinds(events[..|events| - 1]) + [events[|events| - 1].Header?]
  }

  function Bytes(events: seq<Event>): nat {
    if events == [] then 0 else Bytes(events[..|events| - 1]) + |events[|events| - 1].chunk.data|
  }

  // The traffic put together again from what the two buffers were offered.
  function Merge(kinds: seq<bool>, header: seq<Chunk>, body: seq<Chunk>): seq<Event> {
    if kinds == [] then []
    else
      var n := |kinds| - 1;
      if kinds[n] && header != [] then
        Merge(kinds[..n], header[..|header| - 1], body) + [Header(header[|header| - 1])]
      else if !kinds[n] && body != [] then
        Merge(kinds[..n], header, body[..|body| - 1]) + [Body(body[|body| - 1])]
      else []
  }

  lemma OneMoreEvent(events: seq<Event>, e: Event)
    ensures Kinds(events + [e]) == Kinds(events) + [e.Header?]
    ensures forall header :: Chunks(events + [e], header) ==
              if e.Header? == header then Chunks(events, header) + [e.chunk] else Chunks(events, header)
    ensures Bytes(events + [e]) == Bytes(events) + |e.chunk.data|
  {
    assert (events + [e])[..|events|] == events;
  }

  lemma MergeOne(kinds: seq<bool>, header: seq<Chunk>, body: seq<Chunk>, e: Event)
    ensures Merge(kinds + [e.Header?],
                  if e.Header? then header + [e.chunk] else header,
                  if e.Header? then body else body + [e.chunk]) == Merge(kinds, header, body) + [e]
  {
    assert (kinds + [e.Header?])[..|kinds|] == kinds;
    if e.Header? {
      assert (header + [e.chunk])[..|header|] == header;
    } else {
      assert (body + [e.chunk])[..|body|] == body;
    }
  }

  lemma {:induction false} TrafficMerges(events: seq<Event>)
    ensures Merge(Kinds(events), Chunks(events, true), Chunks(events, false)) == events
  {
    if events != [] {
      var n := |events| - 1;
      var front, last := events[..n], events[n];
      TrafficMerges(front);
      assert events == front + [last];
      OneMoreEvent(front, last);
      MergeOne(Kinds(front), Chunks(front, true), Chunks(front, false), last);
    }
  }

  lemma {:induction false} BytesSplit(events: seq<Event>)
    ensures Bytes(events) == |Joined(Chunks(events, true))| + |Joined(Chunks(events, false))|
  {
    if events != [] {
      var n := |events| - 1;
      var front, last := events[..n], events[n];
      BytesSplit(front);
      assert events == front + [last];
      OneMoreEvent(front, last);
      JoinedOneMore(Chunks(front, last.Header?), last.chunk);
    }
  }

  // A chunk is only refused when it holds something, so no byte is lost exactly when no
  // chunk is.
  lemma {:induction false} BytesLostIff(c: Contents, chunks: seq<Chunk>)
    requires |c.data| < c.capacity
    ensures |Joined(AcceptedChunks(c, chunks))| <= |Joined(chunks)|
    ensures |Joined(AcceptedChunks(c, chunks))| == |Joined(chunks)| <==> AcceptedChunks(c, chunks) == chunks
  {
    if chunks != [] {
      var n := |chunks| - 1;
      var front, last := chunks[..n], chunks[n];
      assert chunks == front + [last];
      var kept := AcceptedChunks(c, front);
      BytesLostIff(c, front);
      RunHoldsAcceptedChunks(c, front);
      AcceptedOneMore(c, front, last);
      JoinedOneMore(front, last);
      JoinedOneMore(kept, last);
      assert AcceptedChunks(c, chunks) == if Accepted(AppendedAll(c, front), last) then kept + [last] else kept;
    }
  }

  // The two emptied buffers of one download share its traffic: it can be restored from
  // what they were offered, they hold at most its bytes, and all of them exactly when
  // each chunk could grow its buffer or fitted.
  lemma SinksShareTraffic(events: seq<Event>, bodySize: nat, headerSize: nat)
    requires bodySize > 0 && headerSize > 0
    ensures Merge(Kinds(events), Chunks(events, true), Chunks(events, false)) == events
    ensures var body0, header0 := Contents([], bodySize), Contents([], headerSize);
      var body := AppendedAll(body0, Chunks(events, false));
      var header := AppendedAll(header0, Chunks(events, true));
      && |body.data| + |header.data| <= Bytes(events)
      && (|body.data| + |header.data| == Bytes(events) <==>
            AllStorable(body0, Chunks(events, false)) && AllStorable(header0, Chunks(events, true)))
  {
    TrafficMerges(events);
    BytesSplit(events);
    DownloadRefills(bodySize, Chunks(events, false));
    DownloadRefills(headerSize, Chunks(events, true));
    BytesLostIff(Contents([], bodySize), Chunks(events, false));
    BytesLostIff(Contents([], headerSize), Chunks(events, true));
  }
}
