/** `makeOneMatch`: three parsers of one replay run side by side, each hands over either its data or an error,
    a fourth goroutine closes the channels once all three are done, and the caller reads the error channel first
    and the three data channels after it.  The goroutines are the processes of a labelled transition system. */
module FanOut {

  /** The part of a parsed frame this protocol looks at. */
  datatype Frame = Frame(matchId: int, time: int)

  datatype FullMatch = FullMatch(matchId: int, general: seq<Frame>, visionRadiant: seq<Frame>, visionDire: seq<Frame>)

  /** How one parser call ends: with data, with an error, or with a panic. */
  datatype Outcome = Ok(data: seq<Frame>) | Err | Panic

  /** A goroutine's program counter: before the parser returns, before the send, before `wgParse.Done()`, ended. */
  datatype Producer = Parsing | Delivering(data: seq<Frame>) | Reporting | Leaving | Ended

  /** The caller ranges over the error channel, then receives radiant, dire and general, then returns. */
  datatype Caller =
    | Ranging
    | AtRadiant
    | AtDire(radiant: seq<Frame>)
    | AtGeneral(radiant: seq<Frame>, dire: seq<Frame>)
    | Returned(result: Result)

  datatype Result = Match(fm: FullMatch) | ParserError | LengthError

  /** A buffered data channel of capacity 1. */
  datatype Chan = Chan(buf: seq<seq<Frame>>, closed: bool)

  // The parsers in the order the goroutines are started, which is also the index of their data channel.
  const DIRE: nat := 0
  const GENERAL: nat := 1
  const RADIANT: nat := 2
  const ERR_CAPACITY: nat := 3

  datatype State = State(
    producers: seq<Producer>,
    wg: int,
    chans: seq<Chan>,
    errors: nat,            // errors buffered in errChan
    errorsClosed: bool,
    closer: nat,            // close statements already executed
    caller: Caller,
    outcomes: seq<Outcome>  // what each parser call yields; fixed, but unknown to the protocol
  )

  /** The data channel closed by the k-th close statement; the fourth closes the error channel. */
  function CloseOrder(k: nat): nat
    requires k < 3
  {
    if k == 0 then RADIANT else if k == 1 then DIRE else GENERAL
  }

  function Start(outcomes: seq<Outcome>): State
    requires |outcomes| == 3
  {
    State([Parsing, Parsing, Parsing], 3, [Chan([], false), Chan([], false), Chan([], false)],
          0, false, 0, Ranging, outcomes)
  }

  datatype Step = ParserReturns(i: nat) | SendData(i: nat) | SendError(i: nat) | Done(i: nat) | Close | Call

  predicate Shaped(s: State) {
    |s.producers| == 3 && |s.chans| == 3 && |s.outcomes| == 3
  }

  /** A receive can go on when the buffer holds something or the channel is closed. */
  predicate CanReceive(c: Chan) {
    c.buf != [] || c.closed
  }

  /** A receive on a closed, drained channel yields the zero value: a nil slice. */
  function Received(c: Chan): seq<Frame> {
    if c.buf == [] then [] else c.buf[0]
  }

  predicate Enabled(s: State, step: Step)
    requires Shaped(s)
  {
    match step
    case ParserReturns(i) => i < 3 && s.producers[i].Parsing?
    case SendData(i) => i < 3 && s.producers[i].Delivering? && (|s.chans[i].buf| < 1 || s.chans[i].closed)
    case SendError(i) => i < 3 && s.producers[i].Reporting? && (s.errors < ERR_CAPACITY || s.errorsClosed)
    case Done(i) => i < 3 && s.producers[i].Leaving?
    case Close => s.wg == 0 && s.closer < 4
    case Call =>
      match s.caller
      case Ranging => s.errors > 0 || s.errorsClosed
      case AtRadiant => CanReceive(s.chans[RADIANT])
      case AtDire(_) => CanReceive(s.chans[DIRE])
      case AtGeneral(_, _) => CanReceive(s.chans[GENERAL])
      case Returned(_) => false
  }

  function Drain(s: State, i: nat): seq<Chan>
    requires Shaped(s) && i < 3
  {
    if s.chans[i].buf == [] then s.chans else s.chans[i := s.chans[i].(buf := s.chans[i].buf[1..])]
  }

  /** The checks and the value at the end of `makeOneMatch`. */
  function Assemble(general: seq<Frame>, radiant: seq<Frame>, dire: seq<Frame>): Result {
    if |general| == 0 || |radiant| == 0 || |dire| == 0 then LengthError
    else Match(FullMatch(general[0].matchId, general, radiant, dire))
  }

  /** One step.  A send on a closed channel would panic; the goroutine's recover then reports an error. */
  function Apply(s: State, step: Step): State
    requires Shaped(s) && Enabled(s, step)
  {
    match step
    case ParserReturns(i) =>
      s.(producers := s.producers[i := if s.outcomes[i].Ok? then Delivering(s.outcomes[i].data) else Reporting])
    case SendData(i) =>
      if s.chans[i].closed then
        s.(producers := s.producers[i := Reporting])
      else
        s.(producers := s.producers[i := Leaving],
           chans := s.chans[i := s.chans[i].(buf := s.chans[i].buf + [s.producers[i].data])])
    case SendError(i) =>
      if s.errorsClosed then
        s.(producers := s.producers[i := Leaving])
      else
        s.(producers := s.producers[i := Leaving], errors := s.errors + 1)
    case Done(i) => s.(producers := s.producers[i := Ended], wg := s.wg - 1)
    case Close =>
      if s.closer < 3 then
        var c := CloseOrder(s.closer);
        s.(closer := s.closer + 1, chans := s.chans[c := s.chans[c].(closed := true)])
      else
        s.(closer := 4, errorsClosed := true)
    case Call =>
      match s.caller
      case Ranging =>
        if s.errors > 0 then s.(errors := s.errors - 1, caller := Returned(ParserError)) else s.(caller := AtRadiant)
      case AtRadiant => s.(caller := AtDire(Received(s.chans[RADIANT])), chans := Drain(s, RADIANT))
      case AtDire(radiant) =>
        s.(caller := AtGeneral(radiant, Received(s.chans[DIRE])), chans := Drain(s, DIRE))
      case AtGeneral(radiant, dire) =>
        s.(caller := Returned(Assemble(Received(s.chans[GENERAL]), radiant, dire)), chans := Drain(s, GENERAL))
      case Returned(_) => s
  }

  // ---------- the inductive invariant ----------

  function Working(p: Producer): nat {
    if p.Ended? then 0 else 1
  }

  /** Whether a parser failed and its error has been sent. */
  function Reported(s: State, i: nat): nat
    requires Shaped(s) && i < 3
  {
    if !s.outcomes[i].Ok? && (s.producers[i].Leaving? || s.producers[i].Ended?) then 1 else 0
  }

  /** The caller has already taken the data of channel `i`. */
  predicate Taken(c: Caller, i: nat) {
    match c
    case Ranging => false
    case AtRadiant => false
    case AtDire(_) => i == RADIANT
    case AtGeneral(_, _) => i == RADIANT || i == DIRE
    case Returned(r) => !r.ParserError?
  }

  predicate ProducerInv(s: State, i: nat)
    requires Shaped(s) && i < 3
  {
    match s.producers[i]
    case Parsing => s.chans[i].buf == []
    case Delivering(data) => s.outcomes[i] == Ok(data) && s.chans[i].buf == []
    case Reporting => !s.outcomes[i].Ok? && s.chans[i].buf == []
    case _ => s.chans[i].buf == if s.outcomes[i].Ok? && !Taken(s.caller, i) then [s.outcomes[i].data] else []
  }

  /** What the caller holds is each parser's own data. */
  predicate CallerInv(s: State)
    requires Shaped(s)
  {
    && (!s.caller.Ranging? && s.caller != Returned(ParserError) ==>
          s.errorsClosed && s.errors == 0 && forall i | 0 <= i < 3 :: s.outcomes[i].Ok?)
    && match s.caller
       case AtDire(r) => Ok(r) == s.outcomes[RADIANT]
       case AtGeneral(r, d) => Ok(r) == s.outcomes[RADIANT] && Ok(d) == s.outcomes[DIRE]
       case Returned(res) =>
         if res == ParserError then
           exists i | 0 <= i < 3 :: !s.outcomes[i].Ok?
         else
           && (forall i | 0 <= i < 3 :: s.outcomes[i].Ok?)
           && res == Assemble(s.outcomes[GENERAL].data, s.outcomes[RADIANT].data, s.outcomes[DIRE].data)
       case _ => true
  }

  predicate Inv(s: State) {
    && Shaped(s)
    && s.wg == Working(s.producers[0]) + Working(s.producers[1]) + Working(s.producers[2])
    && s.errors + (if s.caller == Returned(ParserError) then 1 else 0)
       == Reported(s, 0) + Reported(s, 1) + Reported(s, 2)
    && s.closer <= 4
    && (s.closer > 0 ==> s.wg == 0)
    && (forall k | 0 <= k < 3 :: s.chans[CloseOrder(k)].closed <==> k < s.closer)
    && (s.errorsClosed <==> s.closer == 4)
    && (forall i | 0 <= i < 3 :: ProducerInv(s, i))
    && CallerInv(s)
  }

  /** The close order visits each data channel once. */
  lemma CloseOrderIsPermutation()
    ensures CloseOrder(0) == RADIANT && CloseOrder(1) == DIRE && CloseOrder(2) == GENERAL
  {}

  /** While a parser goroutine is still working, no channel has been closed and the caller has read no data. */
  lemma OpenWhileWorking(s: State, i: nat)
    requires Inv(s) && i < 3 && !s.producers[i].Ended?
    ensures s.closer == 0 && !s.errorsClosed && forall j | 0 <= j < 3 :: !s.chans[j].closed
    ensures s.caller.Ranging? || s.caller == Returned(ParserError)
    ensures s.wg > 0
  {
    CloseOrderIsPermutation();
    assert s.wg > 0 by {
      if i == 0 {} else if i == 1 {} else {}
    }
    assert s.chans[CloseOrder(0)].closed <==> 0 < s.closer;
    assert s.chans[CloseOrder(1)].closed <==> 1 < s.closer;
    assert s.chans[CloseOrder(2)].closed <==> 2 < s.closer;
  }

  /** Replacing the counter of one working goroutine, and its channel, keeps the invariant if the counts follow. */
  lemma ProducerUpdateKeepsInv(s: State, i: nat, p: Producer, c: Chan, wg: int, errors: nat)
    requires Inv(s) && i < 3 && !s.producers[i].Ended? && !c.closed
    requires var t := s.(producers := s.producers[i := p], chans := s.chans[i := c], wg := wg, errors := errors);
             && ProducerInv(t, i)
             && wg - s.wg == Working(p) - Working(s.producers[i])
             && errors - s.errors == Reported(t, i) - Reported(s, i)
    ensures Inv(s.(producers := s.producers[i := p], chans := s.chans[i := c], wg := wg, errors := errors))
  {
    OpenWhileWorking(s, i);
    var t := s.(producers := s.producers[i := p], chans := s.chans[i := c], wg := wg, errors := errors);
    forall j | 0 <= j < 3 && j != i
      ensures ProducerInv(t, j) && Reported(t, j) == Reported(s, j)
    {
      assert ProducerInv(s, j);
    }
    assert forall j | 0 <= j < 3 :: !t.chans[j].closed;
  }

  lemma ProducerStepKeepsInv(s: State, step: Step)
    requires Inv(s) && Enabled(s, step) && !step.Close? && !step.Call?
    ensures Inv(Apply(s, step))
  {
    var i := step.i;
    OpenWhileWorking(s, i);
    assert ProducerInv(s, i);
    var p := s.producers[i];
    var same := s.chans[i];
    match step {
      case ParserReturns(_) =>
        var q := if s.outcomes[i].Ok? then Delivering(s.outcomes[i].data) else Reporting;
        ProducerUpdateKeepsInv(s, i, q, same, s.wg, s.errors);
      case SendData(_) =>
        ProducerUpdateKeepsInv(s, i, Leaving, same.(buf := same.buf + [p.data]), s.wg, s.errors);
      case SendError(_) =>
        ProducerUpdateKeepsInv(s, i, Leaving, same, s.wg, s.errors + 1);
      case Done(_) =>
        ProducerUpdateKeepsInv(s, i, Ended, same, s.wg - 1, s.errors);
    }
    assert s.chans[i := same] == s.chans;
  }

  lemma CloseKeepsInv(s: State)
    requires Inv(s) && Enabled(s, Close)
    ensures Inv(Apply(s, Close))
  {
    CloseOrderIsPermutation();
    var t := Apply(s, Close);
    assert ProducerInv(s, 0) && ProducerInv(s, 1) && ProducerInv(s, 2);
    assert ProducerInv(t, 0) && ProducerInv(t, 1) && ProducerInv(t, 2);
    forall k | 0 <= k < 3
      ensures t.chans[CloseOrder(k)].closed <==> k < t.closer
    {
      assert s.chans[CloseOrder(k)].closed <==> k < s.closer;
    }
  }

  /** Once the error channel is closed and drained with no error taken, all three parsers have delivered. */
  lemma DrainedMeansAllDelivered(s: State)
    requires Inv(s) && s.errorsClosed && s.errors == 0 && s.caller != Returned(ParserError)
    ensures forall i | 0 <= i < 3 :: s.producers[i].Ended? && s.outcomes[i].Ok?
    ensures forall i | 0 <= i < 3 && !Taken(s.caller, i) :: s.chans[i].buf == [s.outcomes[i].data]
  {
    assert ProducerInv(s, 0) && ProducerInv(s, 1) && ProducerInv(s, 2);
    assert Working(s.producers[0]) + Working(s.producers[1]) + Working(s.producers[2]) == 0;
    assert Reported(s, 0) == 0 && Reported(s, 1) == 0 && Reported(s, 2) == 0;
  }

  /** The caller takes an error and returns. */
  lemma TakeErrorKeepsInv(s: State)
    requires Inv(s) && s.caller.Ranging? && s.errors > 0
    ensures Inv(Apply(s, Call))
  {
    var t := Apply(s, Call);
    assert Reported(s, 0) + Reported(s, 1) + Reported(s, 2) > 0;
    assert exists i | 0 <= i < 3 :: !s.outcomes[i].Ok?;
    forall i | 0 <= i < 3
      ensures ProducerInv(t, i)
    {
      assert ProducerInv(s, i);
    }
  }

  /** The error channel is drained, or the caller receives from a data channel. */
  lemma ReceiveKeepsInv(s: State)
    requires Inv(s) && Enabled(s, Call) && !(s.caller.Ranging? && s.errors > 0)
    ensures Inv(Apply(s, Call))
  {
    var t := Apply(s, Call);
    DrainedMeansAllDelivered(s);
    forall i | 0 <= i < 3
      ensures ProducerInv(t, i)
    {
      assert ProducerInv(s, i);
    }
    forall k | 0 <= k < 3
      ensures t.chans[CloseOrder(k)].closed <==> k < t.closer
    {
      assert s.chans[CloseOrder(k)].closed <==> k < s.closer;
    }
  }

  lemma CallKeepsInv(s: State)
    requires Inv(s) && Enabled(s, Call)
    ensures Inv(Apply(s, Call))
  {
    if s.caller.Ranging? && s.errors > 0 {
      TakeErrorKeepsInv(s);
    } else {
      ReceiveKeepsInv(s);
    }
  }

  lemma InvPreserved(s: State, step: Step)
    requires Inv(s) && Enabled(s, step)
    ensures Inv(Apply(s, step))
  {
    match step
    case Close => CloseKeepsInv(s);
    case Call => CallKeepsInv(s);
    case _ => ProducerStepKeepsInv(s, step);
  }

  // ---------- safety of the channels ----------

  /** A goroutine about to send always finds an open channel with room, whatever the caller does:
      no send blocks, and no send or close hits a closed channel. */
  lemma SendsNeverBlock(s: State, i: nat)
    requires Inv(s) && i < 3
    ensures s.producers[i].Delivering? ==> Enabled(s, SendData(i)) && !s.chans[i].closed
    ensures s.producers[i].Reporting? ==> Enabled(s, SendError(i)) && !s.errorsClosed
    ensures Enabled(s, Close) ==> if s.closer < 3 then !s.chans[CloseOrder(s.closer)].closed else !s.errorsClosed
    ensures s.wg >= 0
  {
    assert ProducerInv(s, i);
    assert CloseOrder(0) == 2 && CloseOrder(1) == 0 && CloseOrder(2) == 1;
    assert s.producers[i].Delivering? || s.producers[i].Reporting? ==> s.wg > 0;
  }

  // ---------- progress ----------

  /** Every goroutine has ended and the caller has returned. */
  predicate Quiet(s: State)
    requires Shaped(s)
  {
    s.caller.Returned? && s.closer == 4 && forall i | 0 <= i < 3 :: s.producers[i].Ended?
  }

  lemma EnabledStep(s: State) returns (step: Step)
    requires Inv(s) && !Quiet(s)
    ensures Enabled(s, step)
  {
    if i :| 0 <= i < 3 && !s.producers[i].Ended? {
      SendsNeverBlock(s, i);
      var p := s.producers[i];
      step := if p.Parsing? then ParserReturns(i) else if p.Delivering? then SendData(i)
              else if p.Reporting? then SendError(i) else Done(i);
    } else if s.closer < 4 {
      step := Close;
    } else {
      step := Call;
      assert CloseOrder(0) == 2 && CloseOrder(1) == 0 && CloseOrder(2) == 1;
    }
  }

  function ProducerRank(p: Producer): nat {
    match p
    case Parsing => 4
    case Delivering(_) => 3
    case Reporting => 2
    case Leaving => 1
    case Ended => 0
  }

  function CallerRank(c: Caller): nat {
    match c
    case Ranging => 4
    case AtRadiant => 3
    case AtDire(_) => 2
    case AtGeneral(_, _) => 1
    case Returned(_) => 0
  }

  function Rank(s: State): int
    requires Shaped(s)
  {
    ProducerRank(s.producers[0]) + ProducerRank(s.producers[1]) + ProducerRank(s.producers[2])
    + CallerRank(s.caller) + 4 - s.closer
  }

  lemma StepLowersRank(s: State, step: Step)
    requires Shaped(s) && Enabled(s, step)
    ensures Shaped(Apply(s, step)) && Rank(Apply(s, step)) < Rank(s)
  {}

  // ---------- whole runs ----------

  predicate CanRun(s: State, steps: seq<Step>)
    decreases |steps|
  {
    steps == [] || (Shaped(s) && Enabled(s, steps[0]) && CanRun(Apply(s, steps[0]), steps[1..]))
  }

  function After(s: State, steps: seq<Step>): State
    requires CanRun(s, steps)
    decreases |steps|
  {
    if steps == [] then s else After(Apply(s, steps[0]), steps[1..])
  }

  lemma {:induction false} RunKeepsInv(s: State, steps: seq<Step>)
    requires Inv(s) && CanRun(s, steps)
    ensures Inv(After(s, steps))
    ensures |steps| + Rank(After(s, steps)) <= Rank(s)
    ensures After(s, steps).outcomes == s.outcomes
    decreases |steps|
  {
    if steps != [] {
      InvPreserved(s, steps[0]);
      StepLowersRank(s, steps[0]);
      RunKeepsInv(Apply(s, steps[0]), steps[1..]);
    }
  }

  /** What `makeOneMatch` returns, as a function of the three parser outcomes. */
  function Verdict(outcomes: seq<Outcome>): Result
    requires |outcomes| == 3
  {
    if forall i | 0 <= i < 3 :: outcomes[i].Ok? then
      Assemble(outcomes[GENERAL].data, outcomes[RADIANT].data, outcomes[DIRE].data)
    else
      ParserError
  }

  /** In every interleaving: runs have at most 20 steps, a run that cannot be continued has ended every goroutine,
      and whenever the caller has returned, even while parsers still run, its result is the verdict on the outcomes. */
  lemma EveryInterleaving(outcomes: seq<Outcome>, steps: seq<Step>)
    requires |outcomes| == 3 && CanRun(Start(outcomes), steps)
    ensures |steps| <= 20
    ensures var s := After(Start(outcomes), steps);
            && Shaped(s)
            && (s.caller.Returned? ==> s.caller.result == Verdict(outcomes))
            && ((forall step :: !Enabled(s, step)) ==> Quiet(s))
  {
    var s0 := Start(outcomes);
    assert ProducerInv(s0, 0) && ProducerInv(s0, 1) && ProducerInv(s0, 2);
    assert Inv(s0);
    RunKeepsInv(s0, steps);
    var s := After(s0, steps);
    assert Rank(s) >= 0;
    if !Quiet(s) {
      var step := EnabledStep(s);
    }
  }

  // ---------- what the caller gets ----------

  /** The three parsers have succeeded with nonempty outputs, and the match carries the general output, the output of
      the radiant parser as radiant's, that of the dire parser as dire's, and the id of the first general frame. */
  predicate Yields(outcomes: seq<Outcome>, fm: FullMatch)
    requires |outcomes| == 3
  {
    && outcomes[GENERAL] == Ok(fm.general)
    && outcomes[RADIANT] == Ok(fm.visionRadiant)
    && outcomes[DIRE] == Ok(fm.visionDire)
    && fm.general != [] && fm.visionRadiant != [] && fm.visionDire != []
    && fm.matchId == fm.general[0].matchId
  }

  lemma VerdictExactly(outcomes: seq<Outcome>)
    requires |outcomes| == 3
    ensures forall fm :: Verdict(outcomes) == Match(fm) <==> Yields(outcomes, fm)
    ensures Verdict(outcomes).ParserError? <==> exists i | 0 <= i < 3 :: !outcomes[i].Ok?
    ensures Verdict(outcomes).LengthError? <==>
              (forall i | 0 <= i < 3 :: outcomes[i].Ok?) && exists i | 0 <= i < 3 :: outcomes[i] == Ok([])
  {
    if forall i | 0 <= i < 3 :: outcomes[i].Ok? {
      assert forall i | 0 <= i < 3 :: outcomes[i] == Ok([]) <==> outcomes[i].data == [];
    }
  }

  /** In every interleaving, when the caller has returned: it has the match that carries each parser's output in its own
      place if all three succeeded with nonempty outputs, the length error exactly if all succeeded and one output is
      empty, and a parser's error exactly if one failed. */
  lemma ReturnedExactly(outcomes: seq<Outcome>, steps: seq<Step>)
    requires |outcomes| == 3 && CanRun(Start(outcomes), steps) && After(Start(outcomes), steps).caller.Returned?
    ensures (var result := After(Start(outcomes), steps).caller.result;
             && (forall fm :: result == Match(fm) <==> Yields(outcomes, fm))
             && (result.ParserError? <==> exists i | 0 <= i < 3 :: !outcomes[i].Ok?)
             && (result.LengthError? <==>
                   (forall i | 0 <= i < 3 :: outcomes[i].Ok?) && exists i | 0 <= i < 3 :: outcomes[i] == Ok([])))
  {
    EveryInterleaving(outcomes, steps);
    VerdictExactly(outcomes);
  }
}
