// What the chunk loop guarantees over whole runs: resume safety, the retry bound,
// completion and the accounting of bytes.
module ResumeSafety {
  import opened Common
  import opened DecimalText
  import opened ChunkDownload

  // The first seekPlace bytes of the file are those of the remote.
  predicate Safe(p: Progress, remote: seq<byte>) {
    0 <= p.seekPlace <= |remote| && p.seekPlace <= |p.contents| &&
    p.contents[..p.seekPlace] == remote[..p.seekPlace]
  }

  // The number the server reads from the range is the place the file is written at.
  predicate RangeAgrees(p: Progress) {
    p.seekPlace >= 0 && RangeStart(p.range) == Some(p.seekPlace)
  }

  // Server assumptions. A body sent for the range "N-" starts at byte N ...
  predicate Honours(remote: seq<byte>, range: string, r: Round) {
    match RangeStart(range)
    case None => false
    case Some(n) => n <= |remote| && Sent(r) <= remote[n..]
  }

  // ... and a completed answer carries it to the end.
  predicate SendsToEnd(remote: seq<byte>, range: string, r: Round) {
    match RangeStart(range)
    case None => false
    case Some(n) => n <= |remote| && Sent(r) == remote[n..]
  }

  // The assumption on a run: it binds the rounds whose bytes the loop builds on
  // (interrupted and resumed, or completed). Failed rounds may write anything.
  predicate ServerContract(p: Progress, rounds: seq<Round>, remote: seq<byte>)
    decreases |rounds|
  {
    p.retry == 0 || rounds == [] ||
    match Step(p, rounds[0])
    case Running(q) =>
      (Transient(rounds[0]) ==> Honours(remote, p.range, rounds[0])) &&
      ServerContract(q, rounds[1..], remote)
    case Stopped(_, _) =>
      Requests(p, rounds[0]) && Complete(rounds[0]) ==> SendsToEnd(remote, p.range, rounds[0])
  }

  predicate TransientRoundsHonoured(p: Progress, rounds: seq<Round>, remote: seq<byte>)
    decreases |rounds|
  {
    p.retry == 0 || rounds == [] ||
    match Step(p, rounds[0])
    case Running(q) =>
      (Transient(rounds[0]) ==> Honours(remote, p.range, rounds[0])) &&
      TransientRoundsHonoured(q, rounds[1..], remote)
    case Stopped(_, _) => true
  }

  predicate AllHeadsSafe(p: Progress, rounds: seq<Round>, remote: seq<byte>)
    decreases |rounds|
  {
    Safe(p, remote) && RangeAgrees(p) &&
    (p.retry == 0 || rounds == [] ||
     match Step(p, rounds[0])
     case Running(q) => AllHeadsSafe(q, rounds[1..], remote)
     case Stopped(_, _) => true)
  }

  // No request reaches past what an int can count.
  predicate BelowIntLimit(p: Progress, rounds: seq<Round>)
    decreases |rounds|
  {
    p.retry == 0 || rounds == [] ||
    match Step(p, rounds[0])
    case Running(q) => p.seekPlace + |Sent(rounds[0])| < INT_LIMIT && BelowIntLimit(q, rounds[1..])
    case Stopped(_, _) => true
  }

  lemma FailedRoundKeepsSafe(p: Progress, r: Round, remote: seq<byte>)
    requires p.retry > 0 && Safe(p, remote) && RangeAgrees(p)
    requires Step(p, r).Running? && !Transient(r)
    ensures Safe(Step(p, r).at, remote) && RangeAgrees(Step(p, r).at)
  {
  }

  // Appending at n extends a right prefix exactly when the new bytes are the remote's at n.
  lemma WriteExtendsPrefixIff(c: seq<byte>, n: nat, sent: seq<byte>, remote: seq<byte>)
    requires n <= |c| && n <= |remote| && c[..n] == remote[..n]
    ensures var w, m := WriteAt(c, n, sent), n + |sent|;
      && m <= |w|
      && (m <= |remote| && w[..m] == remote[..m] <==> sent <= remote[n..])
  {
    WriteAtEffect(c, n, sent);
    var w, m := WriteAt(c, n, sent), n + |sent|;
    assert w[..m] == c[..n] + sent;
    if m <= |remote| {
      assert remote[..m] == remote[..n] + remote[n..][..|sent|];
      if w[..m] == remote[..m] {
        assert sent == w[..m][n..] == remote[..m][n..] == remote[n..][..|sent|];
      }
    }
  }

  lemma ResumedState(p: Progress, r: Round)
    requires p.retry > 0 && Step(p, r).Running? && Transient(r)
    requires p.seekPlace + |Sent(r)| < INT_LIMIT
    ensures var q, n := Step(p, r).at, p.seekPlace + |Sent(r)|;
      && q.seekPlace == n
      && q.contents == WriteAt(p.contents, p.seekPlace, Sent(r))
      && q.range == Decimal(n) + "-"
  {
    ToIntKeepsIff(p.seekPlace + |Sent(r)|);
  }

  lemma ResumedRange(p: Progress, r: Round)
    requires p.retry > 0 && Step(p, r).Running? && Transient(r)
    requires p.seekPlace + |Sent(r)| < INT_LIMIT
    ensures RangeAgrees(Step(p, r).at)
  {
    ResumedState(p, r);
    PrintedRangeReadsBack(Step(p, r).at.seekPlace);
  }

  // A resumed round keeps the loop safe exactly when its bytes are the remote's at N.
  lemma TransientRoundSafeIff(p: Progress, r: Round, remote: seq<byte>)
    requires p.retry > 0 && Safe(p, remote) && RangeAgrees(p)
    requires Step(p, r).Running? && Transient(r)
    requires p.seekPlace + |Sent(r)| < INT_LIMIT
    ensures RangeAgrees(Step(p, r).at)
    ensures Safe(Step(p, r).at, remote) <==> Honours(remote, p.range, r)
  {
    ResumedState(p, r);
    ResumedRange(p, r);
    WriteExtendsPrefixIff(p.contents, p.seekPlace, Sent(r), remote);
  }

  // Every loop head of a run is safe exactly when every resumed round honoured its range.
  lemma {:induction false} ResumeSafetyIff(p: Progress, rounds: seq<Round>, remote: seq<byte>)
    requires Safe(p, remote) && RangeAgrees(p) && BelowIntLimit(p, rounds)
    ensures AllHeadsSafe(p, rounds, remote) <==> TransientRoundsHonoured(p, rounds, remote)
    decreases |rounds|
  {
    if p.retry > 0 && rounds != [] && Step(p, rounds[0]).Running? {
      var q := Step(p, rounds[0]).at;
      if Transient(rounds[0]) {
        TransientRoundSafeIff(p, rounds[0], remote);
      } else {
        FailedRoundKeepsSafe(p, rounds[0], remote);
      }
      if Safe(q, remote) {
        ResumeSafetyIff(q, rounds[1..], remote);
      }
    }
  }

  lemma StepIsSafe(p: Progress, r: Round, remote: seq<byte>)
    requires p.retry > 0 && Safe(p, remote) && RangeAgrees(p) && |remote| < INT_LIMIT
    requires Step(p, r).Running?
    requires Transient(r) ==> Honours(remote, p.range, r)
    ensures var q := Step(p, r).at;
      && Safe(q, remote) && RangeAgrees(q)
      && q.seekPlace == p.seekPlace + (if Transient(r) then |Sent(r)| else 0)
  {
    if Transient(r) {
      ResumedState(p, r);
      ResumedRange(p, r);
      WriteExtendsPrefixIff(p.contents, p.seekPlace, Sent(r), remote);
    } else {
      FailedRoundKeepsSafe(p, r, remote);
    }
  }

  // Resume safety at every loop head; the bytes that were right stay right in any case.
  lemma {:induction false} ResumeSafety(p: Progress, rounds: seq<Round>, remote: seq<byte>)
    requires Safe(p, remote) && RangeAgrees(p) && |remote| < INT_LIMIT
    requires ServerContract(p, rounds, remote)
    ensures var o := Run(p, rounds);
      && (o.Running? ==> Safe(o.at, remote) && RangeAgrees(o.at) && p.seekPlace <= o.at.seekPlace)
      && p.seekPlace <= |o.at.contents|
      && o.at.contents[..p.seekPlace] == remote[..p.seekPlace]
    decreases |rounds|
  {
    if p.retry > 0 && rounds != [] {
      match Step(p, rounds[0])
      case Running(q) =>
        StepIsSafe(p, rounds[0], remote);
        ResumeSafety(q, rounds[1..], remote);
        var c := Run(q, rounds[1..]).at.contents;
        assert c[..p.seekPlace] == c[..q.seekPlace][..p.seekPlace];
        assert remote[..p.seekPlace] == remote[..q.seekPlace][..p.seekPlace];
      case Stopped(q, _) =>
        WriteAtEffect(p.contents, p.seekPlace, Sent(rounds[0]));
    }
  }

  // -------------------------------------------------- what the codes decide

  // A round that sends its request, on a place the file and an int can hold: 18, 28 and
  // 56 resume behind the bytes just written and leave the budget alone, 33, 36 and a
  // 200 or 206 without error end the loop, and everything else costs one of the budget.
  lemma CodesDecide(p: Progress, r: Round)
    requires p.retry > 0 && p.seekPlace >= 0 && r.setopt == 0 && r.seekOk && r.tellOk
    requires p.seekPlace + |Sent(r)| < 0x8000_0000
    ensures var o, curl, http := Step(p, r), r.answer.curl, r.answer.http;
      && (o.Running? && o.at.retry == p.retry <==> curl in {18, 28, 56})
      && (o.Stopped? <==> curl in {33, 36} || (curl == 0 && http in {200, 206}))
      && (o.Running? && o.at.retry != p.retry ==> o.at.retry == p.retry - 1)
      && o.at.seekPlace == p.seekPlace + (if curl in {18, 28, 56} then |Sent(r)| else 0)
      && o.at.range == (if curl in {18, 28, 56} then Decimal(p.seekPlace + |Sent(r)|) + "-" else p.range)
      && o.at.contents == WriteAt(p.contents, p.seekPlace, Sent(r))
      && o.at.datasize == p.datasize + |Sent(r)|
      && o.at.http == http && o.at.curl == curl
      && (o.Stopped? ==> o.ret == o.at.datasize)
  {
    ToIntKeepsIff(p.seekPlace + |Sent(r)|);
  }

  // The other ways out: a rejected option returns its code and changes nothing; a place
  // that is not one, before or after the request, reports code 33 and returns 0.
  lemma ErrorsDecide(p: Progress, r: Round)
    requires p.retry > 0
    ensures r.setopt != 0 ==> Step(p, r) == Stopped(p, r.setopt)
    ensures r.setopt == 0 && (p.seekPlace < 0 || !r.seekOk) ==>
              Step(p, r) == Stopped(p.(http := 0, curl := 33), 0)
    ensures r.setopt == 0 && p.seekPlace >= 0 && r.seekOk && r.answer.curl in {18, 28, 56} && !r.tellOk ==>
              var o := Step(p, r);
              && o.Stopped? && o.ret == 0 && o.at.http == 0 && o.at.curl == 33
              && o.at.contents == WriteAt(p.contents, p.seekPlace, Sent(r))
  {
  }

  // ------------------------------------------------------------ retry bound

  function RequestCount(p: Progress, rounds: seq<Round>): nat
    decreases |rounds|
  {
    if p.retry == 0 || rounds == [] then 0
    else (if Requests(p, rounds[0]) then 1 else 0) +
         match Step(p, rounds[0])
         case Running(q) => RequestCount(q, rounds[1..])
         case Stopped(_, _) => 0
  }

  // A round whose code is not one of the three after which the loop resumes.
  predicate Fails(r: Round) {
    r.answer.curl !in {18, 28, 56}
  }

  // The failed rounds of a run that did not end it.
  function FailedRounds(p: Progress, rounds: seq<Round>): nat
    decreases |rounds|
  {
    if p.retry == 0 || rounds == [] then 0
    else match Step(p, rounds[0])
      case Running(q) => (if Fails(rounds[0]) then 1 else 0) + FailedRounds(q, rounds[1..])
      case Stopped(_, _) => 0
  }

  // The retry budget is spent by failed rounds and by nothing else.
  lemma {:induction false} BudgetCountsFailures(p: Progress, rounds: seq<Round>)
    ensures Run(p, rounds).at.retry + FailedRounds(p, rounds) == p.retry
    decreases |rounds|
  {
    if p.retry > 0 && rounds != [] && Step(p, rounds[0]).Running? {
      BudgetCountsFailures(Step(p, rounds[0]).at, rounds[1..]);
    }
  }

  // A round after which the loop goes on, as far as the round alone decides it.
  predicate GoesOn(r: Round) {
    var curl, http := r.answer.curl, r.answer.http;
    && r.setopt == 0 && r.seekOk
    && curl !in {33, 36}
    && !(curl == 0 && http in {200, 206})
    && (!Fails(r) ==> r.tellOk)
  }

  function Failures(rounds: seq<Round>): nat {
    if rounds == [] then 0 else (if Fails(rounds[0]) then 1 else 0) + Failures(rounds[1..])
  }

  // The place after a round, and the places of all rounds in turn staying real: an int
  // that has wrapped below zero ends the loop.
  function PlaceAfter(place: int, r: Round): int {
    if Fails(r) then place else ToInt(place + |Sent(r)|)
  }

  predicate PlacesStay(place: int, rounds: seq<Round>)
    decreases |rounds|
  {
    rounds == [] ||
    (place >= 0 &&
     var next := PlaceAfter(place, rounds[0]);
     next >= 0 && PlacesStay(next, rounds[1..]))
  }

  predicate AllGoOn(rounds: seq<Round>) {
    forall k :: 0 <= k < |rounds| ==> GoesOn(rounds[k])
  }

  lemma AllGoOnFirst(rounds: seq<Round>)
    requires rounds != []
    ensures AllGoOn(rounds) <==> GoesOn(rounds[0]) && AllGoOn(rounds[1..])
  {
    assert rounds == [rounds[0]] + rounds[1..];
  }

  // The loop asks for one more round exactly when every round so far lets it go on, no
  // place has wrapped, and fewer rounds failed than the budget has; then each of them
  // sent a request.
  lemma {:induction false} RunningIff(p: Progress, rounds: seq<Round>)
    ensures Run(p, rounds).Running? <==>
            AllGoOn(rounds) && PlacesStay(p.seekPlace, rounds) && Failures(rounds) < p.retry
    ensures Run(p, rounds).Running? ==> RequestCount(p, rounds) == |rounds|
    decreases |rounds|
  {
    if p.retry > 0 && rounds != [] {
      AllGoOnFirst(rounds);
      StepGoesOnIff(p, rounds[0]);
      if Step(p, rounds[0]).Running? {
        RunningIff(Step(p, rounds[0]).at, rounds[1..]);
      }
    }
  }

  lemma StepGoesOnIff(p: Progress, r: Round)
    requires p.retry > 0
    ensures Step(p, r).Running? <==> GoesOn(r) && p.seekPlace >= 0 && PlaceAfter(p.seekPlace, r) >= 0
    ensures Step(p, r).Running? ==>
              var q := Step(p, r).at;
              && q.seekPlace == PlaceAfter(p.seekPlace, r)
              && q.retry == p.retry - (if Fails(r) then 1 else 0)
  {
  }

  // Below the reach of an int no place wraps.
  lemma {:induction false} PlacesBelowLimit(place: int, rounds: seq<Round>)
    requires 0 <= place && place + TotalSent(rounds) < INT_LIMIT
    ensures PlacesStay(place, rounds)
    decreases |rounds|
  {
    if rounds != [] {
      if Transient(rounds[0]) {
        ToIntKeepsIff(place + |Sent(rounds[0])|);
      }
      PlacesBelowLimit(PlaceAfter(place, rounds[0]), rounds[1..]);
    }
  }

  function TotalSent(rounds: seq<Round>): nat {
    if rounds == [] then 0 else (if Transient(rounds[0]) then |Sent(rounds[0])| else 0) + TotalSent(rounds[1..])
  }

  // The interrupted rounds of a run that delivered nothing.
  function Stalls(p: Progress, rounds: seq<Round>): nat
    decreases |rounds|
  {
    if p.retry == 0 || rounds == [] then 0
    else match Step(p, rounds[0])
      case Running(q) => (if Transient(rounds[0]) && Sent(rounds[0]) == [] then 1 else 0) + Stalls(q, rounds[1..])
      case Stopped(_, _) => 0
  }

  // Budget, missing bytes and stalls bound the number of requests, and a run that long
  // has stopped.
  lemma {:induction false} RequestBound(p: Progress, rounds: seq<Round>, remote: seq<byte>)
    requires Safe(p, remote) && RangeAgrees(p) && |remote| < INT_LIMIT
    requires ServerContract(p, rounds, remote)
    ensures var bound := p.retry + |remote| - p.seekPlace + Stalls(p, rounds);
      && RequestCount(p, rounds) <= bound
      && (|rounds| >= bound ==> Run(p, rounds).Stopped?)
    decreases |rounds|
  {
    if p.retry > 0 && rounds != [] && Step(p, rounds[0]).Running? {
      StepIsSafe(p, rounds[0], remote);
      RequestBound(Step(p, rounds[0]).at, rounds[1..], remote);
    }
  }

  const STALL := Round(0, true, true, Answer(28, 0, []))

  // The stalls have to be counted: timeouts without data are retried for ever.
  lemma {:induction false} StallsNeverStop(p: Progress, n: nat)
    requires p.retry > 0 && 0 <= p.seekPlace < INT_LIMIT
    ensures Run(p, seq(n, _ => STALL)).Running?
    ensures RequestCount(p, seq(n, _ => STALL)) == n
    decreases n
  {
    var stalls := seq(n, _ => STALL);
    if n > 0 {
      assert stalls[1..] == seq(n - 1, _ => STALL);
      StallsNeverStop(Step(p, STALL).at, n - 1);
    }
  }

  // ------------------------------------------- completion and conservation

  // All bytes written, and those written by failed rounds.
  function TotalWritten(p: Progress, rounds: seq<Round>): nat
    decreases |rounds|
  {
    if p.retry == 0 || rounds == [] then 0
    else (if Requests(p, rounds[0]) then |Sent(rounds[0])| else 0) +
         match Step(p, rounds[0])
         case Running(q) => TotalWritten(q, rounds[1..])
         case Stopped(_, _) => 0
  }

  function Wasted(p: Progress, rounds: seq<Round>): nat
    decreases |rounds|
  {
    if p.retry == 0 || rounds == [] then 0
    else match Step(p, rounds[0])
      case Running(q) => (if Transient(rounds[0]) then 0 else |Sent(rounds[0])|) + Wasted(q, rounds[1..])
      case Stopped(_, _) => 0
  }

  // The furthest byte the file ever reached.
  function HighWater(p: Progress, rounds: seq<Round>): int
    decreases |rounds|
  {
    if p.retry == 0 || rounds == [] then |p.contents|
    else match Step(p, rounds[0])
      case Running(q) => Max(p.seekPlace + |Sent(rounds[0])|, HighWater(q, rounds[1..]))
      case Stopped(_, _) =>
        if Requests(p, rounds[0]) then Max(|p.contents|, p.seekPlace + |Sent(rounds[0])|) else |p.contents|
  }

  predicate ReportsSuccess(p: Progress) {
    p.curl == 0 && (p.http == 206 || p.http == 200)
  }

  lemma {:induction false} DatasizeIsTotal(p: Progress, rounds: seq<Round>)
    ensures Run(p, rounds).at.datasize == p.datasize + TotalWritten(p, rounds)
    decreases |rounds|
  {
    if p.retry > 0 && rounds != [] && Step(p, rounds[0]).Running? {
      DatasizeIsTotal(Step(p, rounds[0]).at, rounds[1..]);
    }
  }

  lemma {:induction false} HighWaterAtLeast(p: Progress, rounds: seq<Round>, remote: seq<byte>)
    requires Safe(p, remote) && RangeAgrees(p) && |remote| < INT_LIMIT
    requires ServerContract(p, rounds, remote)
    ensures |p.contents| <= HighWater(p, rounds) == |Run(p, rounds).at.contents|
    decreases |rounds|
  {
    if p.retry > 0 && rounds != [] {
      WriteAtEffect(p.contents, p.seekPlace, Sent(rounds[0]));
      if Step(p, rounds[0]).Running? {
        StepIsSafe(p, rounds[0], remote);
        HighWaterAtLeast(Step(p, rounds[0]).at, rounds[1..], remote);
      }
    }
  }

  // At every loop head the byte count is what was gained plus what was wasted.
  lemma {:induction false} BytesAccounted(p: Progress, rounds: seq<Round>, remote: seq<byte>)
    requires Safe(p, remote) && RangeAgrees(p) && |remote| < INT_LIMIT
    requires ServerContract(p, rounds, remote)
    ensures var o := Run(p, rounds);
      o.Running? ==> o.at.datasize - p.datasize == o.at.seekPlace - p.seekPlace + Wasted(p, rounds)
    decreases |rounds|
  {
    if p.retry > 0 && rounds != [] && Step(p, rounds[0]).Running? {
      StepIsSafe(p, rounds[0], remote);
      BytesAccounted(Step(p, rounds[0]).at, rounds[1..], remote);
    }
  }

  lemma LastRoundCompletes(p: Progress, r: Round, remote: seq<byte>)
    requires p.retry > 0 && Safe(p, remote) && RangeAgrees(p)
    requires Requests(p, r) && Complete(r) && SendsToEnd(remote, p.range, r)
    ensures var c := AfterRequest(p, r).contents; |c| >= |remote| && c[..|remote|] == remote
  {
  }

  // What a successful run leaves: the whole remote at the front of the file and, as the
  // returned value, the missing bytes plus the wasted ones; the file is the remote and
  // nothing more exactly when no write, old or new, went past the remote's end.
  predicate CompletedWith(p: Progress, rounds: seq<Round>, remote: seq<byte>) {
    var o := Run(p, rounds);
    && o.Stopped? && remote <= o.at.contents
    && o.ret == o.at.datasize == p.datasize + |remote| - p.seekPlace + Wasted(p, rounds)
    && (o.at.contents == remote <==> HighWater(p, rounds) <= |remote|)
  }

  lemma {:induction false} CompletionFrom(p: Progress, rounds: seq<Round>, remote: seq<byte>)
    requires Safe(p, remote) && RangeAgrees(p) && |remote| < INT_LIMIT
    requires ServerContract(p, rounds, remote) && !ReportsSuccess(p)
    ensures var o := Run(p, rounds);
      o.Stopped? && ReportsSuccess(o.at) ==> CompletedWith(p, rounds, remote)
    decreases |rounds|
  {
    if p.retry > 0 && rounds != [] {
      HighWaterAtLeast(p, rounds, remote);
      match Step(p, rounds[0])
      case Running(q) =>
        StepIsSafe(p, rounds[0], remote);
        CompletionFrom(q, rounds[1..], remote);
        WriteAtEffect(p.contents, p.seekPlace, Sent(rounds[0]));
        HighWaterAtLeast(q, rounds[1..], remote);
      case Stopped(q, _) =>
        if ReportsSuccess(q) {
          LastRoundCompletes(p, rounds[0], remote);
          assert q.contents == remote <==> |q.contents| <= |remote|;
        }
    }
  }

  // The codes the caller passed in play no part once a request was made.
  lemma {:induction false} CodesForgotten(p: Progress, rounds: seq<Round>, http: int, curl: int, remote: seq<byte>)
    ensures var p' := p.(http := http, curl := curl);
      && RequestCount(p', rounds) == RequestCount(p, rounds)
      && Wasted(p', rounds) == Wasted(p, rounds)
      && HighWater(p', rounds) == HighWater(p, rounds)
      && ServerContract(p', rounds, remote) == ServerContract(p, rounds, remote)
      && (RequestCount(p, rounds) > 0 ==> Run(p', rounds) == Run(p, rounds))
  {
    if p.retry > 0 && rounds != [] && Requests(p, rounds[0]) {
      assert AfterRequest(p.(http := http, curl := curl), rounds[0]) == AfterRequest(p, rounds[0]);
    }
  }

  // Every run that made a request and reports success is such a run.
  lemma Completion(p: Progress, rounds: seq<Round>, remote: seq<byte>)
    requires Safe(p, remote) && RangeAgrees(p) && |remote| < INT_LIMIT
    requires ServerContract(p, rounds, remote)
    ensures var o := Run(p, rounds);
      o.Stopped? && RequestCount(p, rounds) > 0 && ReportsSuccess(o.at) ==> CompletedWith(p, rounds, remote)
  {
    CodesForgotten(p, rounds, 0, -1, remote);
    CompletionFrom(p.(http := 0, curl := -1), rounds, remote);
  }

  lemma InitialIsSafe(contents: seq<byte>, start: string, remote: seq<byte>, http: int, curl: int)
    requires |start| < RANGE_BUFFER && RangeStart(start).Some? && |remote| < INT_LIMIT
    requires RangeStart(start).value <= |remote| && remote[..RangeStart(start).value] <= contents
    ensures var p := Initial(contents, start, http, curl);
      Safe(p, remote) && RangeAgrees(p) && p.seekPlace == RangeStart(start).value
  {
    RangeStartIsAtoi(start);
    assert Initial(contents, start, http, curl).range == start;
  }

  // The whole claim for a call: a well-formed start "N-" and a file that already
  // holds the first N bytes.
  lemma DownloadIsCorrect(contents: seq<byte>, start: string, rounds: seq<Round>, remote: seq<byte>,
                          http: int, curl: int)
    requires |start| < RANGE_BUFFER && RangeStart(start).Some? && |remote| < INT_LIMIT
    requires RangeStart(start).value <= |remote| && remote[..RangeStart(start).value] <= contents
    requires ServerContract(Initial(contents, start, http, curl), rounds, remote)
    ensures var p, n := Initial(contents, start, http, curl), RangeStart(start).value;
      var o, bound := Run(p, rounds), |remote| - n + 2 + Stalls(p, rounds);
      && Safe(p, remote) && RangeAgrees(p)
      && (o.Running? ==> Safe(o.at, remote) && RangeAgrees(o.at))
      && FailedRounds(p, rounds) <= 2
      && RequestCount(p, rounds) <= bound
      && (|rounds| >= bound ==> o.Stopped?)
      && (o.Running? <==> AllGoOn(rounds) && PlacesStay(n, rounds) && Failures(rounds) < 2)
      && (o.Stopped? && RequestCount(p, rounds) > 0 && ReportsSuccess(o.at) ==>
            && remote <= o.at.contents
            && o.ret == |remote| - n + Wasted(p, rounds)
            && (o.ret == |remote| - n <==> Wasted(p, rounds) == 0)
            && (o.at.contents == remote <==> HighWater(p, rounds) <= |remote|))
  {
    var p := Initial(contents, start, http, curl);
    InitialIsSafe(contents, start, remote, http, curl);
    ResumeSafety(p, rounds, remote);
    BudgetCountsFailures(p, rounds);
    RequestBound(p, rounds, remote);
    RunningIff(p, rounds);
    Completion(p, rounds, remote);
  }

  // The start state of a download from nothing, and that state after one failed round
  // that wrote the whole remote.
  function FromNothing(): Progress {
    Initial([], "0-", 0, -1)
  }

  function AfterFailure(remote: seq<byte>): Progress {
    Progress(remote, 0, "0-", 1, |remote|, 503, 22)
  }

  lemma FailureWritesRemote(remote: seq<byte>)
    ensures Step(FromNothing(), Delivering(remote, 22, 503)) == Running(AfterFailure(remote))
  {
    ZeroStart();
    SentByDelivering(remote, 22, 503);
    WriteAtStart(remote);
  }

  lemma SuccessWritesItAgain(remote: seq<byte>)
    ensures Step(AfterFailure(remote), Delivering(remote, 0, 206)) ==
            Stopped(Progress(remote, 0, "0-", 1, 2 * |remote|, 206, 0), 2 * |remote|)
  {
    SentByDelivering(remote, 0, 206);
    assert WriteAt(remote, 0, remote) == remote;
  }

  // A failed round that writes the whole remote and a completed one after it: the file
  // is right, and the returned value is twice its size.
  lemma RetriedBytesCountTwice(remote: seq<byte>)
    requires remote != []
    ensures var rounds := [Delivering(remote, 22, 503), Delivering(remote, 0, 206)];
      var o := Run(FromNothing(), rounds);
      && ServerContract(FromNothing(), rounds, remote)
      && o.Stopped? && ReportsSuccess(o.at) && o.at.contents == remote
      && Wasted(FromNothing(), rounds) == |remote| && o.ret == 2 * |remote|
  {
    var bad, good := Delivering(remote, 22, 503), Delivering(remote, 0, 206);
    FailureWritesRemote(remote);
    SuccessWritesItAgain(remote);
    SentByDelivering(remote, 22, 503);
    SentByDelivering(remote, 0, 206);
    ZeroStart();
    assert [bad, good][1..] == [good];
  }

  lemma ZeroStart()
    ensures RangeStart("0-") == Some(0) && Atoi("0-") == 0
  {
    assert Decimal(0) + "-" == "0-";
    PrintedRangeReadsBack(0);
  }

  // A round without trouble that delivers the given bytes in one piece.
  function Delivering(bytes: seq<byte>, curl: int, http: int): Round {
    Round(0, true, true, Answer(curl, http, [Delivery(bytes, 0, |bytes|)]))
  }

  lemma SentByDelivering(bytes: seq<byte>, curl: int, http: int)
    ensures Sent(Delivering(bytes, curl, http)) == bytes
  {
    var ds := Delivering(bytes, curl, http).answer.deliveries;
    assert ds[..0] == [];
    assert Written(ds) == Written(ds[..0]) + Taken(ds[0]) == bytes;
  }

  // ------------------------------------------------- an answer that is not a range

  // Section 3.1 of RFC 7233 lets a server ignore the range and send everything with
  // 200, which the loop accepts too. Written at place N, the result is right exactly
  // when the remote repeats itself with period N.
  lemma FullBodySafeIff(p: Progress, r: Round, remote: seq<byte>)
    requires p.retry > 0 && Safe(p, remote) && Requests(p, r)
    requires Sent(r) == remote
    ensures var c := AfterRequest(p, r).contents;
      && |c| >= |remote|
      && (c[..|remote|] == remote <==> remote[..|remote| - p.seekPlace] == remote[p.seekPlace..])
  {
    WriteAtEffect(p.contents, p.seekPlace, remote);
    ShiftedCopyIff(p.contents, p.seekPlace, remote, AfterRequest(p, r).contents);
  }

  lemma ShiftedCopyIff(before: seq<byte>, n: nat, remote: seq<byte>, after: seq<byte>)
    requires n <= |remote| && n <= |before| && before[..n] == remote[..n]
    requires n + |remote| <= |after| && after[..n] == before[..n] && after[n..n + |remote|] == remote
    ensures after[..|remote|] == remote <==> remote[..|remote| - n] == remote[n..]
  {
    var len := |remote|;
    assert after[..len] == remote[..n] + remote[..len - n];
    assert remote == remote[..n] + remote[n..];
    if after[..len] == remote {
      assert after[..len][n..] == remote[..len - n];
    }
  }

  // A call from "N-" on a file that holds the first N bytes, answered once with 200
  // and the whole remote: the remote ends up at the front of the file.
  predicate FullBodyHarmless(n: nat, contents: seq<byte>, remote: seq<byte>) {
    remote <= Run(Initial(contents, Decimal(n) + "-", 0, -1), [Delivering(remote, 0, 200)]).at.contents
  }

  // Such a call starts at a place where range, seek_place and file agree.
  lemma CallFromN(n: nat, contents: seq<byte>, remote: seq<byte>)
    requires n < INT_LIMIT && n <= |remote| && remote[..n] <= contents
    ensures var p := Initial(contents, Decimal(n) + "-", 0, -1);
      && Safe(p, remote) && RangeAgrees(p) && p.seekPlace == n
      && Run(p, [Delivering(remote, 0, 200)]).at.contents == WriteAt(contents, n, remote)
  {
    var p, r := Initial(contents, Decimal(n) + "-", 0, -1), Delivering(remote, 0, 200);
    PrintedRangeReadsBack(n);
    IntDecimalLength(n);
    assert p.range == Decimal(n) + "-";
    SentByDelivering(remote, 0, 200);
    assert Step(p, r) == Stopped(AfterRequest(p, r), AfterRequest(p, r).datasize);
  }

  lemma FullBodyHarmlessIff(n: nat, contents: seq<byte>, remote: seq<byte>)
    requires n < INT_LIMIT && n <= |remote| && remote[..n] <= contents
    ensures FullBodyHarmless(n, contents, remote) <==> remote[..|remote| - n] == remote[n..]
  {
    var p := Initial(contents, Decimal(n) + "-", 0, -1);
    CallFromN(n, contents, remote);
    SentByDelivering(remote, 0, 200);
    FullBodySafeIff(p, Delivering(remote, 0, 200), remote);
  }

  // So an ignored range is harmless for every remote exactly from place 0.
  lemma FullBodyHarmlessIffFromZero(n: nat)
    requires n < INT_LIMIT
    ensures n == 0 <==>
            forall contents: seq<byte>, remote: seq<byte> ::
              n <= |remote| && remote[..n] <= contents ==> FullBodyHarmless(n, contents, remote)
  {
    if n == 0 {
      forall contents: seq<byte>, remote: seq<byte> | remote[..n] <= contents
        ensures FullBodyHarmless(n, contents, remote)
      {
        FullBodyHarmlessIff(n, contents, remote);
      }
    } else {
      var remote: seq<byte> := [1] + seq(n, _ => 0);
      FullBodyHarmlessIff(n, remote[..n], remote);
      assert remote[..1][0] != remote[n..][0];
      assert !FullBodyHarmless(n, remote[..n], remote);
    }
  }

  // ---------------------------------------------------------- the whole call

  // The first call in a list that fails, if any.
  function FirstError(codes: seq<int>): int {
    if codes == [] then 0 else if codes[0] != 0 then codes[0] else FirstError(codes[1..])
  }

  // A call that gets no further than its preparations returns 0, or the code of the
  // first rejected option, and leaves the caller's codes alone.
  lemma CallFailsEarly(s: Setup, contents: seq<byte>, start: Option<string>, rounds: seq<Round>, full: Answer,
                       http: int, curl: int)
    requires var codes := [s.headerFunction, s.headerData, s.writeFunction, s.writeData];
      || !s.args || !s.opens
      || (start == None && !s.headerOpens)
      || FirstError(if start == None then codes else codes[2..]) != 0
    ensures var o := Download(s, contents, start, rounds, full, http, curl);
      && o.Some? && o.value.http == http && o.value.curl == curl
      && (!s.args || !s.opens ==> o.value.ret == 0 && o.value.contents == contents)
      && (s.args && s.opens ==> o.value.contents == if start == None then [] else contents)
      && (s.args && s.opens && start == None ==>
            o.value.ret == if !s.headerOpens then 0
                           else FirstError([s.headerFunction, s.headerData, s.writeFunction, s.writeData]))
      && (s.args && s.opens && start.Some? ==> o.value.ret == FirstError([s.writeFunction, s.writeData]))
  {
    FirstOfTwo(s.writeFunction, s.writeData);
    FirstOfFour(s.headerFunction, s.headerData, s.writeFunction, s.writeData);
  }

  lemma FirstOfTwo(a: int, b: int)
    ensures FirstError([a, b]) == if a != 0 then a else b
  {
    assert [a, b][1..] == [b] && [b][1..] == [];
    assert FirstError([b]) == b;
  }

  lemma FirstOfFour(a: int, b: int, c: int, d: int)
    ensures [a, b, c, d][2..] == [c, d]
    ensures FirstError([a, b, c, d]) == if a != 0 then a else if b != 0 then b else FirstError([c, d])
  {
    assert [a, b, c, d][1..] == [b, c, d] && [b, c, d][1..] == [c, d];
  }

  predicate AllSet(s: Setup) {
    s.args && s.opens && s.headerOpens &&
    s.headerFunction == 0 && s.headerData == 0 && s.writeFunction == 0 && s.writeData == 0
  }

  // The bytes of some deliveries, one after the other.
  function Handed(deliveries: seq<Delivery>): seq<byte> {
    if deliveries == [] then []
    else Handed(deliveries[..|deliveries| - 1]) + deliveries[|deliveries| - 1].data
  }

  // Nothing stops the write callback or runs out of space.
  predicate AllFit(deliveries: seq<Delivery>) {
    forall k :: 0 <= k < |deliveries| ==> deliveries[k].forceStop != 1 && |deliveries[k].data| <= deliveries[k].room
  }

  lemma {:induction false} HandedIsWritten(deliveries: seq<Delivery>)
    requires AllFit(deliveries)
    ensures Written(deliveries) == Handed(deliveries)
  {
    if deliveries != [] {
      HandedIsWritten(deliveries[..|deliveries| - 1]);
    }
  }

  // One more delivery: nothing when the callback is told to stop, else as much of its
  // front as there is room for.
  lemma DeliveryAdds(deliveries: seq<Delivery>, d: Delivery)
    ensures Written(deliveries + [d]) ==
            Written(deliveries) + if d.forceStop == 1 then [] else d.data[..Min(d.room, |d.data|)]
  {
    assert (deliveries + [d])[..|deliveries|] == deliveries;
  }

  // Without a start position the caller sees the written bytes and nothing else in the
  // file, their number, and the codes of the one answer.
  lemma FullDownloadIs(s: Setup, contents: seq<byte>, rounds: seq<Round>, full: Answer, http: int, curl: int)
    requires AllSet(s)
    ensures var o := Download(s, contents, None, rounds, full, http, curl);
      && o.Some? && o.value.contents == Written(full.deliveries) && o.value.ret == |o.value.contents|
      && o.value.http == full.http && o.value.curl == full.curl
      && (AllFit(full.deliveries) ==> o.value.contents == Handed(full.deliveries))
  {
    if AllFit(full.deliveries) {
      HandedIsWritten(full.deliveries);
    }
  }

  // With one the caller sees where the run of the loop stopped: with a start "N-", a
  // success means the whole remote in front and the missing plus the wasted bytes.
  lemma ResumedDownloadIs(s: Setup, contents: seq<byte>, start: string, rounds: seq<Round>, full: Answer,
                          remote: seq<byte>, http: int, curl: int)
    requires AllSet(s) && |start| < 32 && RangeStart(start).Some? && |remote| < 0x8000_0000
    requires RangeStart(start).value <= |remote| && remote[..RangeStart(start).value] <= contents
    requires ServerContract(Initial(contents, start, http, curl), rounds, remote)
    ensures var p, n := Initial(contents, start, http, curl), RangeStart(start).value;
      var o := Download(s, contents, Some(start), rounds, full, http, curl);
      && (o == None <==> AllGoOn(rounds) && PlacesStay(n, rounds) && Failures(rounds) < 2)
      && (o.Some? && RequestCount(p, rounds) > 0 && o.value.curl == 0 && o.value.http in {200, 206} ==>
            remote <= o.value.contents && o.value.ret == |remote| - n + Wasted(p, rounds))
  {
    DownloadIsCorrect(contents, start, rounds, remote, http, curl);
  }

  // The range first sent is the start text, in at most 31 characters, and the place is
  // the number atoi reads from it.
  lemma CallStarts(contents: seq<byte>, start: string, http: int, curl: int)
    ensures var p := Initial(contents, start, http, curl);
      && p.range == (if |start| <= 31 then start else start[..31])
      && p.contents == contents && p.seekPlace == Atoi(start) && p.retry == 2 && p.datasize == 0
  {
  }
}
