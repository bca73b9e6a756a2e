/** The request stream of the inference service: producers append and trim, workers read new entries through one
    consumer group, build a batch, predict, append one result per item and acknowledge.  A labelled transition system
    over any number of workers; `log(i)` is the i-th entry ever appended to the input stream. */
module InferenceStream {
  import opened Sequences

  /** An entry `pop_raw_messages` cannot parse, one `BatchBuilder.build` skips, or one that becomes a batch item. */
  datatype Message = Malformed | Unbuildable | Good(recordId: string)

  type Log = nat -> Message

  datatype Output = Output(entry: nat, recordId: string, probability: real)

  /** Where a worker is in `process_once`: before the read, after it, or in the batch.  `raw` are the ids to
      acknowledge, `batch` those of the items, `probs` the results computed and `pushed` how many of them were
      appended. */
  datatype Worker =
    | Idle
    | Popped(raw: seq<nat>)
    | Busy(raw: seq<nat>, batch: seq<nat>, probs: seq<real>, pushed: nat)

  datatype State = State(
    added: nat,
    stream: set<nat>,         // the input entries still stored
    delivered: nat,           // the group hands out ids from here on
    pending: set<nat>,        // delivered, not acknowledged
    acked: set<nat>,          // history: acknowledged
    outputs: seq<Output>,     // history: every result ever appended to the output stream
    outputsTrimmed: nat,      // how many of them were trimmed away
    workers: seq<Worker>
  )

  datatype Step =
    | Add | Trim(cut: nat) | TrimOutputs(n: nat)
    | Read(w: nat, upTo: nat, answered: bool)
    | Build(w: nat) | Predict(w: nat, p: real)
    | Push(w: nat, ok: bool)
    | Ack(w: nat, acks: bool, deletes: bool)
    | Fail(w: nat)

  function Start(numWorkers: nat): State {
    State(0, {}, 0, {}, {}, [], 0, seq(numWorkers, _ => Idle))
  }

  // ---------- reading and building ----------

  /** The stored ids from `from` up to `to`, oldest first. */
  function Between(stream: set<nat>, from: nat, to: nat): seq<nat> {
    if to <= from then []
    else Between(stream, from, to - 1) + if to - 1 in stream then [to - 1] else []
  }

  datatype Check = Parsing | Building

  predicate Passes(log: Log, check: Check, id: nat) {
    if check.Parsing? then !log(id).Malformed? else log(id).Good?
  }

  function Select(log: Log, check: Check, ids: seq<nat>): seq<nat> {
    if ids == [] then []
    else Select(log, check, ids[..|ids| - 1]) + if Passes(log, check, ids[|ids| - 1]) then [ids[|ids| - 1]] else []
  }

  /** `BatchBuilder.build`: records whose item cannot be built are skipped. */
  method BuildBatch(log: Log, raw: seq<nat>) returns (batch: seq<nat>)
    ensures batch == Select(log, Building, raw)
  {
    batch := [];
    for i := 0 to |raw|
      invariant batch == Select(log, Building, raw[..i])
    {
      assert raw[..i + 1][..i] == raw[..i];
      if log(raw[i]).Good? {
        batch := batch + [raw[i]];
      }
    }
    assert raw[..|raw|] == raw;
  }

  // ---------- steps ----------

  predicate At(s: State, w: nat) {
    w < |s.workers|
  }

  predicate Enabled(batchSize: nat, s: State, step: Step) {
    match step
    case Add => true
    case Trim(_) => true
    case TrimOutputs(n) => s.outputsTrimmed + n <= |s.outputs|
    case Read(w, upTo, _) =>
      && At(s, w) && s.workers[w].Idle? && s.delivered < upTo <= s.added && upTo - 1 in s.stream
      && (var ids := Between(s.stream, s.delivered, upTo);
          |ids| <= batchSize && (|ids| == batchSize || Between(s.stream, upTo, s.added) == []))
    case Build(w) => At(s, w) && s.workers[w].Popped?
    case Predict(w, _) => At(s, w) && s.workers[w].Busy? && |s.workers[w].probs| < |s.workers[w].batch|
    case Push(w, _) =>
      At(s, w) && s.workers[w].Busy? && s.workers[w].pushed < |s.workers[w].probs| == |s.workers[w].batch|
    case Ack(w, _, _) => At(s, w) && s.workers[w].Busy? && s.workers[w].pushed == |s.workers[w].batch|
    case Fail(w) => At(s, w) && !s.workers[w].Idle?
  }

  /** One step.  A read whose answer is lost still delivers; a probability outside [0, 1] does not validate and ends the
      batch; a push may append and still raise; an acknowledgement may fail before `xack` or between it and `xdel`;
      a worker may fail anywhere.  Whenever a batch ends the worker reads new entries next. */
  function Apply(log: Log, batchSize: nat, s: State, step: Step): State
    requires Enabled(batchSize, s, step)
  {
    match step
    case Add => s.(added := s.added + 1, stream := s.stream + {s.added})
    case Trim(cut) => s.(stream := set id | id in s.stream && id >= cut)
    case TrimOutputs(n) => s.(outputsTrimmed := s.outputsTrimmed + n)
    case Read(w, upTo, answered) =>
      var ids := Between(s.stream, s.delivered, upTo);
      var raw := Select(log, Parsing, ids);
      s.(delivered := upTo, pending := s.pending + (set id | id in ids),
         workers := s.workers[w := if answered && raw != [] then Popped(raw) else Idle])
    case Build(w) =>
      var raw := s.workers[w].raw;
      var batch := Select(log, Building, raw);
      s.(workers := s.workers[w := if batch == [] then Idle else Busy(raw, batch, [], 0)])
    case Predict(w, p) =>
      var v := s.workers[w];
      s.(workers := s.workers[w := if 0.0 <= p <= 1.0 then v.(probs := v.probs + [p]) else Idle])
    case Push(w, ok) =>
      var v := s.workers[w];
      s.(outputs := s.outputs + [ResultOf(log, v)],
         workers := s.workers[w := if ok then v.(pushed := v.pushed + 1) else Idle])
    case Ack(w, acks, deletes) =>
      var ids := set id | id in s.workers[w].raw;
      s.(pending := if acks then s.pending - ids else s.pending,
         acked := if acks then s.acked + ids else s.acked,
         stream := if acks && deletes then s.stream - ids else s.stream,
         workers := s.workers[w := Idle])
    case Fail(w) => s.(workers := s.workers[w := Idle])
  }

  /** The next result of a batch, carrying the item's record id. */
  function ResultOf(log: Log, v: Worker): Output
    requires v.Busy? && v.pushed < |v.probs| && v.pushed < |v.batch|
  {
    var id := v.batch[v.pushed];
    Output(id, if log(id).Good? then log(id).recordId else "", v.probs[v.pushed])
  }

  // ---------- lists of ids ----------

  lemma {:induction false} BetweenHolds(stream: set<nat>, from: nat, to: nat)
    ensures Increasing(Between(stream, from, to))
    ensures forall id :: id in Between(stream, from, to) <==> id in stream && from <= id < to
  {
    if from < to {
      BetweenHolds(stream, from, to - 1);
      if to - 1 in stream {
        AppendLarger(Between(stream, from, to - 1), to - 1);
      }
    }
  }

  lemma {:induction false} SelectMembers(log: Log, check: Check, ids: seq<nat>)
    ensures forall id :: id in Select(log, check, ids) <==> id in ids && Passes(log, check, id)
    decreases |ids|
  {
    if ids != [] {
      var n := |ids| - 1;
      SelectMembers(log, check, ids[..n]);
      assert ids == ids[..n] + [ids[n]];
    }
  }

  lemma {:induction false} SelectHolds(log: Log, check: Check, ids: seq<nat>)
    requires Increasing(ids)
    ensures Increasing(Select(log, check, ids))
    ensures forall id :: id in Select(log, check, ids) <==> id in ids && Passes(log, check, id)
    decreases |ids|
  {
    SelectMembers(log, check, ids);
    if ids != [] {
      var n := |ids| - 1;
      SelectHolds(log, check, ids[..n]);
      if Passes(log, check, ids[n]) {
        AppendLarger(Select(log, check, ids[..n]), ids[n]);
      }
    }
  }

  // ---------- what every step keeps ----------

  function Answered(outputs: seq<Output>): set<nat> {
    set o | o in outputs :: o.entry
  }

  predicate Holds(v: Worker, id: nat) {
    !v.Idle? && id in v.raw
  }

  /** A worker's ids are delivered, readable and in order; its items are the buildable ones; exactly the items before
      `pushed` have a result. */
  ghost predicate WorkerFits(log: Log, delivered: nat, answered: set<nat>, v: Worker) {
    match v
    case Idle => true
    case Popped(raw) => RawFits(log, delivered, raw) && forall id | id in raw :: id !in answered
    case Busy(raw, batch, probs, pushed) =>
      && RawFits(log, delivered, raw) && batch == Select(log, Building, raw)
      && pushed <= |probs| <= |batch| && (pushed > 0 ==> |probs| == |batch|)
      && (forall k | 0 <= k < |probs| :: 0.0 <= probs[k] <= 1.0)
      && (forall k | 0 <= k < |batch| :: batch[k] in answered <==> k < pushed)
  }

  predicate RawFits(log: Log, delivered: nat, raw: seq<nat>) {
    Increasing(raw) && forall id | id in raw :: id < delivered && !log(id).Malformed?
  }

  /** No entry is with two workers. */
  ghost predicate Apart(workers: seq<Worker>) {
    forall v, w, id | 0 <= v < w < |workers| && Holds(workers[v], id) :: !Holds(workers[w], id)
  }

  /** The result of an entry carries the entry's record id and a probability. */
  predicate OutputFits(log: Log, delivered: nat, o: Output) {
    o.entry < delivered && log(o.entry) == Good(o.recordId) && 0.0 <= o.probability <= 1.0
  }

  predicate OneEach(outputs: seq<Output>) {
    forall i, j | 0 <= i < j < |outputs| :: outputs[i].entry != outputs[j].entry
  }

  ghost predicate OutputsFit(log: Log, s: State) {
    OneEach(s.outputs) && s.outputsTrimmed <= |s.outputs|
    && forall o | o in s.outputs :: OutputFits(log, s.delivered, o)
  }

  /** An acknowledged entry was readable, and if it became an item its result has been appended. */
  ghost predicate AckFits(log: Log, s: State) {
    forall id | id in s.acked ::
      id < s.delivered && !log(id).Malformed? && id !in s.pending && (log(id).Good? ==> id in Answered(s.outputs))
  }

  ghost predicate WorkersFit(log: Log, s: State) {
    Apart(s.workers)
    && forall w | 0 <= w < |s.workers| :: WorkerFits(log, s.delivered, Answered(s.outputs), s.workers[w])
  }

  ghost predicate Inv(log: Log, s: State) {
    && s.delivered <= s.added && (forall id | id in s.stream :: id < s.added)
    && (forall id | id in s.pending :: id < s.delivered)
    && WorkersFit(log, s) && OutputsFit(log, s) && AckFits(log, s)
  }

  // ---------- step by step ----------

  /** A worker that gets nothing new stays apart from the others. */
  lemma StillApart(workers: seq<Worker>, w: nat, v: Worker)
    requires Apart(workers) && w < |workers|
    requires forall id | Holds(v, id) :: Holds(workers[w], id)
    ensures Apart(workers[w := v])
  {}

  /** A worker that gets only entries nobody holds stays apart from the others. */
  lemma FreshApart(workers: seq<Worker>, w: nat, v: Worker)
    requires Apart(workers) && w < |workers|
    requires forall u, id | 0 <= u < |workers| && Holds(v, id) :: !Holds(workers[u], id)
    ensures Apart(workers[w := v])
  {}

  lemma ReadKeepsInv(log: Log, batchSize: nat, s: State, step: Step)
    requires Inv(log, s) && step.Read? && Enabled(batchSize, s, step)
    ensures Inv(log, Apply(log, batchSize, s, step))
  {
    var t := Apply(log, batchSize, s, step);
    var ids := Between(s.stream, s.delivered, step.upTo);
    var raw := Select(log, Parsing, ids);
    BetweenHolds(s.stream, s.delivered, step.upTo);
    SelectHolds(log, Parsing, ids);
    FreshEntries(log, s, raw);
    FreshApart(s.workers, step.w, t.workers[step.w]);
    assert WorkerFits(log, t.delivered, Answered(t.outputs), t.workers[step.w]);
    forall w | 0 <= w < |s.workers| && w != step.w
      ensures WorkerFits(log, t.delivered, Answered(t.outputs), t.workers[w])
    {
      assert WorkerFits(log, s.delivered, Answered(s.outputs), s.workers[w]);
    }
  }

  /** Entries that were not delivered before have no result and no holder. */
  lemma FreshEntries(log: Log, s: State, raw: seq<nat>)
    requires Inv(log, s) && forall id | id in raw :: id >= s.delivered
    ensures forall id | id in raw :: id !in Answered(s.outputs)
    ensures forall u, id | 0 <= u < |s.workers| && id in raw :: !Holds(s.workers[u], id)
  {}

  lemma BuildKeepsInv(log: Log, batchSize: nat, s: State, step: Step)
    requires Inv(log, s) && (step.Build? || step.Predict? || step.Fail?) && Enabled(batchSize, s, step)
    ensures Inv(log, Apply(log, batchSize, s, step))
  {
    var t := Apply(log, batchSize, s, step);
    assert WorkerFits(log, s.delivered, Answered(s.outputs), s.workers[step.w]);
    StillApart(s.workers, step.w, t.workers[step.w]);
    if step.Build? {
      SelectHolds(log, Building, s.workers[step.w].raw);
    }
    assert WorkerFits(log, t.delivered, Answered(t.outputs), t.workers[step.w]);
  }

  lemma OneMoreAnswer(outputs: seq<Output>, o: Output)
    ensures Answered(outputs + [o]) == Answered(outputs) + {o.entry}
  {}

  lemma PushKeepsOutputs(log: Log, s: State, o: Output)
    requires OutputsFit(log, s) && o.entry !in Answered(s.outputs) && OutputFits(log, s.delivered, o)
    ensures OutputsFit(log, s.(outputs := s.outputs + [o]))
  {}

  /** Another worker's ids are not touched by a result for an entry it does not hold. */
  lemma OtherWorkerFits(log: Log, delivered: nat, answered: set<nat>, v: Worker, id: nat)
    requires WorkerFits(log, delivered, answered, v) && !Holds(v, id)
    ensures WorkerFits(log, delivered, answered + {id}, v)
  {
    if v.Busy? {
      SelectHolds(log, Building, v.raw);
      assert forall k | 0 <= k < |v.batch| :: v.batch[k] in v.batch;
    }
  }

  lemma PusherFits(log: Log, delivered: nat, answered: set<nat>, v: Worker)
    requires WorkerFits(log, delivered, answered, v) && v.Busy? && v.pushed < |v.probs| == |v.batch|
    ensures WorkerFits(log, delivered, answered + {v.batch[v.pushed]}, v.(pushed := v.pushed + 1))
  {
    SelectHolds(log, Building, v.raw);
  }

  lemma NextResult(log: Log, delivered: nat, answered: set<nat>, v: Worker)
    requires WorkerFits(log, delivered, answered, v) && v.Busy? && v.pushed < |v.probs| == |v.batch|
    ensures OutputFits(log, delivered, ResultOf(log, v)) && v.batch[v.pushed] !in answered
    ensures Holds(v, v.batch[v.pushed])
  {
    SelectHolds(log, Building, v.raw);
    assert v.batch[v.pushed] in v.batch;
  }

  lemma PushKeepsInv(log: Log, batchSize: nat, s: State, step: Step)
    requires Inv(log, s) && step.Push? && Enabled(batchSize, s, step)
    ensures Inv(log, Apply(log, batchSize, s, step))
  {
    var t := Apply(log, batchSize, s, step);
    var v := s.workers[step.w];
    var o := ResultOf(log, v);
    NextResult(log, s.delivered, Answered(s.outputs), v);
    OneMoreAnswer(s.outputs, o);
    PushKeepsOutputs(log, s, o);
    StillApart(s.workers, step.w, t.workers[step.w]);
    PusherFits(log, s.delivered, Answered(s.outputs), v);
    forall w | 0 <= w < |s.workers| && w != step.w
      ensures WorkerFits(log, t.delivered, Answered(t.outputs), t.workers[w])
    {
      assert !Holds(s.workers[w], o.entry);
      OtherWorkerFits(log, s.delivered, Answered(s.outputs), s.workers[w], o.entry);
    }
  }

  lemma AckKeepsInv(log: Log, batchSize: nat, s: State, step: Step)
    requires Inv(log, s) && step.Ack? && Enabled(batchSize, s, step)
    ensures Inv(log, Apply(log, batchSize, s, step))
  {
    var t := Apply(log, batchSize, s, step);
    var v := s.workers[step.w];
    assert WorkerFits(log, s.delivered, Answered(s.outputs), v);
    StillApart(s.workers, step.w, t.workers[step.w]);
    SelectHolds(log, Building, v.raw);
    forall id | id in v.raw
      ensures log(id).Good? ==> id in Answered(s.outputs)
    {
      assert log(id).Good? ==> id in v.batch;
    }
  }

  lemma InvPreserved(log: Log, batchSize: nat, s: State, step: Step)
    requires Inv(log, s) && Enabled(batchSize, s, step)
    ensures Inv(log, Apply(log, batchSize, s, step))
  {
    match step
    case Read(_, _, _) => ReadKeepsInv(log, batchSize, s, step);
    case Push(_, _) => PushKeepsInv(log, batchSize, s, step);
    case Ack(_, _, _) => AckKeepsInv(log, batchSize, s, step);
    case Build(_) => BuildKeepsInv(log, batchSize, s, step);
    case Predict(_, _) => BuildKeepsInv(log, batchSize, s, step);
    case Fail(_) => BuildKeepsInv(log, batchSize, s, step);
    case Add =>
    case Trim(_) =>
    case TrimOutputs(_) =>
  }

  // ---------- an entry is handed out once ----------

  /** Delivered, without a result, and no worker has it. */
  ghost predicate Lost(s: State, id: nat) {
    id < s.delivered && id !in Answered(s.outputs) && forall w | 0 <= w < |s.workers| :: !Holds(s.workers[w], id)
  }

  lemma PushedWasHeld(log: Log, batchSize: nat, s: State, step: Step)
    requires Inv(log, s) && step.Push? && Enabled(batchSize, s, step)
    ensures (var o := ResultOf(log, s.workers[step.w]);
             Holds(s.workers[step.w], o.entry)
             && Answered(Apply(log, batchSize, s, step).outputs) == Answered(s.outputs) + {o.entry})
  {
    var v := s.workers[step.w];
    NextResult(log, s.delivered, Answered(s.outputs), v);
    OneMoreAnswer(s.outputs, ResultOf(log, v));
  }

  lemma LostStaysLost(log: Log, batchSize: nat, s: State, step: Step, id: nat)
    requires Inv(log, s) && Enabled(batchSize, s, step) && Lost(s, id)
    ensures Lost(Apply(log, batchSize, s, step), id)
  {
    if step.Read? {
      BetweenHolds(s.stream, s.delivered, step.upTo);
      SelectHolds(log, Parsing, Between(s.stream, s.delivered, step.upTo));
    } else if step.Push? {
      PushedWasHeld(log, batchSize, s, step);
    }
  }

  // ---------- how an entry is lost ----------

  ghost predicate Held(s: State, id: nat) {
    exists w | 0 <= w < |s.workers| :: Holds(s.workers[w], id)
  }

  /** The entry was appended, has no result, and nothing can give it one any more: it was delivered and no worker has
      it, or it was trimmed away unread. */
  ghost predicate Gone(s: State, id: nat) {
    id < s.added && if id < s.delivered then Lost(s, id) else id !in s.stream
  }

  /** The steps that lose entry `id`: a trim past it while it is unread, a read of it whose answer is lost, and, at the
      worker that has it while it has no result, a failure, a prediction that is no probability, or a push that raises
      before its own result was appended. */
  predicate Loses(batchSize: nat, s: State, step: Step, id: nat)
    requires Enabled(batchSize, s, step)
  {
    match step
    case Trim(cut) => s.delivered <= id < cut && id in s.stream
    case Read(_, upTo, answered) => !answered && s.delivered <= id < upTo && id in s.stream
    case Predict(w, p) => !(0.0 <= p <= 1.0) && Unanswered(s, w, id)
    case Push(w, ok) => !ok && Unanswered(s, w, id) && s.workers[w].batch[s.workers[w].pushed] != id
    case Fail(w) => Unanswered(s, w, id)
    case _ => false
  }

  predicate Unanswered(s: State, w: nat, id: nat)
    requires At(s, w)
  {
    Holds(s.workers[w], id) && id !in Answered(s.outputs)
  }

  /** A worker that lets go of an entry that makes an item has answered it, unless the step loses the entry. */
  lemma LettingGo(log: Log, batchSize: nat, s: State, step: Step, id: nat)
    requires Inv(log, s) && Enabled(batchSize, s, step) && !Loses(batchSize, s, step, id)
    requires step.Build? || step.Predict? || step.Push? || step.Ack? || step.Fail?
    requires log(id).Good? && Unanswered(s, step.w, id)
    ensures (var t := Apply(log, batchSize, s, step); Holds(t.workers[step.w], id) || id in Answered(t.outputs))
  {
    var v := s.workers[step.w];
    assert WorkerFits(log, s.delivered, Answered(s.outputs), v);
    SelectHolds(log, Building, v.raw);
    assert id in Select(log, Building, v.raw);
    if step.Push? {
      PushedWasHeld(log, batchSize, s, step);
    }
  }

  lemma StepOfAnother(log: Log, batchSize: nat, s: State, step: Step, u: nat, id: nat)
    requires Enabled(batchSize, s, step) && At(s, u) && Holds(s.workers[u], id)
    requires (step.Read? || step.Build? || step.Predict? || step.Push? || step.Ack? || step.Fail?) ==> step.w != u
    ensures Held(Apply(log, batchSize, s, step), id)
  {
    assert Holds(Apply(log, batchSize, s, step).workers[u], id);
  }

  /** An entry in a worker's hands stays there or is answered, unless the step loses it. */
  lemma HeldStaysOrAnswered(log: Log, batchSize: nat, s: State, step: Step, id: nat)
    requires Inv(log, s) && Enabled(batchSize, s, step) && log(id).Good? && !Loses(batchSize, s, step, id)
    requires Held(s, id) && id !in Answered(s.outputs)
    ensures (var t := Apply(log, batchSize, s, step); Held(t, id) || id in Answered(t.outputs))
  {
    var u: nat :| u < |s.workers| && Holds(s.workers[u], id);
    if (step.Build? || step.Predict? || step.Push? || step.Ack? || step.Fail?) && step.w == u {
      LettingGo(log, batchSize, s, step, id);
    } else {
      StepOfAnother(log, batchSize, s, step, u, id);
    }
  }

  /** An answered read hands a stored readable entry of its range to the worker. */
  lemma ReadHandsOver(log: Log, batchSize: nat, s: State, step: Step, id: nat)
    requires Enabled(batchSize, s, step) && step.Read? && step.answered && log(id).Good?
    requires s.delivered <= id < step.upTo && id in s.stream
    ensures Held(Apply(log, batchSize, s, step), id)
  {
    var ids := Between(s.stream, s.delivered, step.upTo);
    BetweenHolds(s.stream, s.delivered, step.upTo);
    SelectHolds(log, Parsing, ids);
    assert id in Select(log, Parsing, ids);
    assert Holds(Apply(log, batchSize, s, step).workers[step.w], id);
  }

  /** An unread stored entry stays unread and stored or is handed over, unless the step loses it. */
  lemma UnreadStaysOrHeld(log: Log, batchSize: nat, s: State, step: Step, id: nat)
    requires Inv(log, s) && Enabled(batchSize, s, step) && log(id).Good? && !Loses(batchSize, s, step, id)
    requires s.delivered <= id && id in s.stream
    ensures (var t := Apply(log, batchSize, s, step); if id < t.delivered then Held(t, id) else id in t.stream)
  {
    if step.Read? {
      if id < step.upTo {
        ReadHandsOver(log, batchSize, s, step, id);
      }
    } else if step.Ack? {
      assert WorkerFits(log, s.delivered, Answered(s.outputs), s.workers[step.w]);
    }
  }

  lemma AnswersStay(log: Log, batchSize: nat, s: State, step: Step)
    requires Enabled(batchSize, s, step)
    ensures Answered(s.outputs) <= Answered(Apply(log, batchSize, s, step).outputs)
  {}

  /** A step that does not lose the entry does not make it gone. */
  lemma NotLostNotGone(log: Log, batchSize: nat, s: State, step: Step, id: nat)
    requires Inv(log, s) && Enabled(batchSize, s, step) && log(id).Good?
    requires !Loses(batchSize, s, step, id) && !Gone(s, id)
    ensures !Gone(Apply(log, batchSize, s, step), id)
  {
    AnswersStay(log, batchSize, s, step);
    if s.delivered <= id < s.added {
      UnreadStaysOrHeld(log, batchSize, s, step, id);
    } else if id < s.added && id !in Answered(s.outputs) {
      HeldStaysOrAnswered(log, batchSize, s, step, id);
    }
  }

  /** What nobody else holds is lost when its holder lets go of it. */
  lemma HolderLetsGo(s: State, t: State, w: nat, id: nat)
    requires Apart(s.workers) && At(s, w) && Unanswered(s, w, id) && id < s.delivered
    requires t.workers == s.workers[w := Idle] && t.delivered == s.delivered && id !in Answered(t.outputs)
    ensures Lost(t, id)
  {}

  /** A losing step makes the entry gone. */
  lemma LosingMakesGone(log: Log, batchSize: nat, s: State, step: Step, id: nat)
    requires Inv(log, s) && Enabled(batchSize, s, step) && Loses(batchSize, s, step, id)
    ensures Gone(Apply(log, batchSize, s, step), id)
  {
    var t := Apply(log, batchSize, s, step);
    if step.Read? {
      FreshEntries(log, s, [id]);
      assert id in [id];
    } else if step.Predict? || step.Push? || step.Fail? {
      assert WorkerFits(log, s.delivered, Answered(s.outputs), s.workers[step.w]);
      if step.Push? {
        PushedWasHeld(log, batchSize, s, step);
      }
      HolderLetsGo(s, t, step.w, id);
    }
  }

  /** What is gone stays gone. */
  lemma GoneStaysGone(log: Log, batchSize: nat, s: State, step: Step, id: nat)
    requires Inv(log, s) && Enabled(batchSize, s, step) && Gone(s, id)
    ensures Gone(Apply(log, batchSize, s, step), id)
  {
    if id < s.delivered {
      LostStaysLost(log, batchSize, s, step, id);
    } else if step.Read? && id < step.upTo {
      BetweenHolds(s.stream, s.delivered, step.upTo);
      SelectHolds(log, Parsing, Between(s.stream, s.delivered, step.upTo));
      FreshEntries(log, s, [id]);
      assert id in [id];
    }
  }

  // ---------- whole runs ----------

  predicate CanRun(log: Log, batchSize: nat, s: State, steps: seq<Step>)
    decreases |steps|
  {
    steps == []
    || (Enabled(batchSize, s, steps[0]) && CanRun(log, batchSize, Apply(log, batchSize, s, steps[0]), steps[1..]))
  }

  function After(log: Log, batchSize: nat, s: State, steps: seq<Step>): State
    requires CanRun(log, batchSize, s, steps)
    decreases |steps|
  {
    if steps == [] then s else After(log, batchSize, Apply(log, batchSize, s, steps[0]), steps[1..])
  }

  /** Some step of the run loses entry `id`. */
  predicate RunLoses(log: Log, batchSize: nat, s: State, steps: seq<Step>, id: nat)
    requires CanRun(log, batchSize, s, steps)
    decreases |steps|
  {
    steps != []
    && (Loses(batchSize, s, steps[0], id)
        || RunLoses(log, batchSize, Apply(log, batchSize, s, steps[0]), steps[1..], id))
  }

  lemma {:induction false} RunKeepsInv(log: Log, batchSize: nat, s: State, steps: seq<Step>)
    requires Inv(log, s) && CanRun(log, batchSize, s, steps)
    ensures Inv(log, After(log, batchSize, s, steps))
    decreases |steps|
  {
    if steps != [] {
      InvPreserved(log, batchSize, s, steps[0]);
      RunKeepsInv(log, batchSize, Apply(log, batchSize, s, steps[0]), steps[1..]);
    }
  }

  /** In every interleaving of producers, trims, any number of workers and failures anywhere: no entry has two results,
      every result is the entry's own, and an acknowledged entry that made an item has its result appended. */
  lemma EveryInterleaving(log: Log, batchSize: nat, numWorkers: nat, steps: seq<Step>)
    requires CanRun(log, batchSize, Start(numWorkers), steps)
    ensures (var s := After(log, batchSize, Start(numWorkers), steps);
             && OneEach(s.outputs)
             && (forall o | o in s.outputs :: OutputFits(log, s.delivered, o))
             && (forall id | id in s.acked && log(id).Good? :: id in Answered(s.outputs))
             && (forall id | id in s.acked :: !log(id).Malformed?))
  {
    RunKeepsInv(log, batchSize, Start(numWorkers), steps);
  }

  /** An entry whose batch failed before its result was appended never gets one: nothing is delivered twice. */
  lemma {:induction false} NoSecondDelivery(log: Log, batchSize: nat, s: State, steps: seq<Step>, id: nat)
    requires Inv(log, s) && CanRun(log, batchSize, s, steps) && Lost(s, id)
    ensures Lost(After(log, batchSize, s, steps), id)
    decreases |steps|
  {
    if steps != [] {
      InvPreserved(log, batchSize, s, steps[0]);
      LostStaysLost(log, batchSize, s, steps[0], id);
      NoSecondDelivery(log, batchSize, Apply(log, batchSize, s, steps[0]), steps[1..], id);
    }
  }

  lemma {:induction false} GoneIffLost(log: Log, batchSize: nat, s: State, steps: seq<Step>, id: nat)
    requires Inv(log, s) && CanRun(log, batchSize, s, steps) && log(id).Good?
    ensures Gone(After(log, batchSize, s, steps), id) <==> Gone(s, id) || RunLoses(log, batchSize, s, steps, id)
    decreases |steps|
  {
    if steps != [] {
      var t := Apply(log, batchSize, s, steps[0]);
      InvPreserved(log, batchSize, s, steps[0]);
      GoneIffLost(log, batchSize, t, steps[1..], id);
      if Gone(s, id) {
        GoneStaysGone(log, batchSize, s, steps[0], id);
      } else if Loses(batchSize, s, steps[0], id) {
        LosingMakesGone(log, batchSize, s, steps[0], id);
      } else {
        NotLostNotGone(log, batchSize, s, steps[0], id);
      }
    }
  }

  /** Every stored entry is delivered and every worker is idle. */
  predicate AtRest(s: State) {
    (forall id | id in s.stream :: id < s.delivered) && forall w | 0 <= w < |s.workers| :: s.workers[w].Idle?
  }

  /** Exactly when an entry gets its result: in every run that ends at rest, an appended entry that makes an item has a
      result if and only if no step of the run loses it. */
  lemma AnsweredUnlessLost(log: Log, batchSize: nat, numWorkers: nat, steps: seq<Step>, id: nat)
    requires CanRun(log, batchSize, Start(numWorkers), steps) && AtRest(After(log, batchSize, Start(numWorkers), steps))
    requires id < After(log, batchSize, Start(numWorkers), steps).added && log(id).Good?
    ensures id in Answered(After(log, batchSize, Start(numWorkers), steps).outputs) <==>
            !RunLoses(log, batchSize, Start(numWorkers), steps, id)
  {
    GoneIffLost(log, batchSize, Start(numWorkers), steps, id);
    RunKeepsInv(log, batchSize, Start(numWorkers), steps);
  }

  /** Without failures nothing is lost: once the run is at rest, the entries that make items are exactly the entries
      with a result, and each has one. */
  lemma CarefulRunAnswersAll(log: Log, batchSize: nat, numWorkers: nat, steps: seq<Step>)
    requires CanRun(log, batchSize, Start(numWorkers), steps)
    requires forall id: nat | log(id).Good? :: !RunLoses(log, batchSize, Start(numWorkers), steps, id)
    ensures (var s := After(log, batchSize, Start(numWorkers), steps);
             AtRest(s) ==>
               OneEach(s.outputs) && forall id: nat :: id in Answered(s.outputs) <==> id < s.added && log(id).Good?)
  {
    RunKeepsInv(log, batchSize, Start(numWorkers), steps);
    var s := After(log, batchSize, Start(numWorkers), steps);
    if AtRest(s) {
      forall id: nat | id < s.added && log(id).Good?
        ensures id in Answered(s.outputs)
      {
        AnsweredUnlessLost(log, batchSize, numWorkers, steps, id);
      }
    }
  }

  lemma ThreeSteps(log: Log, batchSize: nat, s: State, a: Step, t: State, b: Step, u: State, c: Step, id: nat)
    requires Enabled(batchSize, s, a) && t == Apply(log, batchSize, s, a)
    requires Enabled(batchSize, t, b) && u == Apply(log, batchSize, t, b)
    requires Enabled(batchSize, u, c) && Loses(batchSize, u, c, id)
    ensures CanRun(log, batchSize, s, [a, b, c]) && RunLoses(log, batchSize, s, [a, b, c], id)
    ensures After(log, batchSize, s, [a, b, c]) == Apply(log, batchSize, u, c)
  {
    assert [a, b, c][1..] == [b, c] && [b, c][1..] == [c] && [c][1..] == [];
    assert CanRun(log, batchSize, u, [c]) && CanRun(log, batchSize, t, [b, c]);
    assert After(log, batchSize, u, [c]) == Apply(log, batchSize, u, c);
    assert After(log, batchSize, t, [b, c]) == After(log, batchSize, u, [c]);
  }

  lemma OneStored()
    ensures Between({0}, 0, 1) == [0] && Between({0}, 1, 1) == []
  {}

  lemma OneParsed(log: Log)
    requires log(0).Good?
    ensures Select(log, Parsing, [0]) == [0]
  {}

  lemma ReadOfOne(log: Log, batchSize: nat)
    requires log(0).Good? && batchSize > 0
    ensures (var s := State(1, {0}, 0, {}, {}, [], 0, [Idle]);
             Enabled(batchSize, s, Read(0, 1, true)) &&
             Apply(log, batchSize, s, Read(0, 1, true)) == State(1, {0}, 1, {0}, {}, [], 0, [Popped([0])]))
  {
    OneStored();
    OneParsed(log);
  }

  /** One entry, one worker: the worker reads the entry and fails.  Everything is delivered, the worker is idle, and the
      entry has no result. */
  lemma FailureLosesAnEntry(log: Log, batchSize: nat)
    requires log(0).Good? && batchSize > 0
    ensures (var steps := [Add, Read(0, 1, true), Fail(0)];
             && CanRun(log, batchSize, Start(1), steps) && RunLoses(log, batchSize, Start(1), steps, 0)
             && After(log, batchSize, Start(1), steps) == State(1, {0}, 1, {0}, {}, [], 0, [Idle]))
  {
    var s := State(1, {0}, 0, {}, {}, [], 0, [Idle]);
    var t := State(1, {0}, 1, {0}, {}, [], 0, [Popped([0])]);
    ReadOfOne(log, batchSize);
    ThreeSteps(log, batchSize, Start(1), Add, s, Read(0, 1, true), t, Fail(0), 0);
  }

  // ---------- whose probability ----------

  /** Each entry's prediction. */
  type Judge = nat -> real

  /** The k-th probability of a batch is the prediction for its k-th item. */
  predicate BatchJudged(judge: Judge, v: Worker) {
    v.Busy? ==> |v.probs| <= |v.batch| && forall k | 0 <= k < |v.probs| :: v.probs[k] == judge(v.batch[k])
  }

  predicate Judged(judge: Judge, s: State) {
    && (forall w | 0 <= w < |s.workers| :: BatchJudged(judge, s.workers[w]))
    && forall o | o in s.outputs :: o.probability == judge(o.entry)
  }

  /** The prediction made next at a worker is the one for its next item. */
  predicate PredictsNext(judge: Judge, s: State, step: Step) {
    step.Predict? && At(s, step.w) && s.workers[step.w].Busy?
    && |s.workers[step.w].probs| < |s.workers[step.w].batch| ==>
      step.p == judge(s.workers[step.w].batch[|s.workers[step.w].probs|])
  }

  lemma StepKeepsJudged(judge: Judge, log: Log, batchSize: nat, s: State, step: Step)
    requires Judged(judge, s) && Enabled(batchSize, s, step) && PredictsNext(judge, s, step)
    ensures Judged(judge, Apply(log, batchSize, s, step))
  {
    if step.Read? || step.Build? || step.Predict? || step.Push? || step.Ack? || step.Fail? {
      assert BatchJudged(judge, s.workers[step.w]);
      assert BatchJudged(judge, Apply(log, batchSize, s, step).workers[step.w]);
    }
  }

  predicate RunPredictsNext(judge: Judge, log: Log, batchSize: nat, s: State, steps: seq<Step>)
    requires CanRun(log, batchSize, s, steps)
    decreases |steps|
  {
    steps == []
    || (PredictsNext(judge, s, steps[0])
        && RunPredictsNext(judge, log, batchSize, Apply(log, batchSize, s, steps[0]), steps[1..]))
  }

  lemma {:induction false} RunKeepsJudged(judge: Judge, log: Log, batchSize: nat, s: State, steps: seq<Step>)
    requires Judged(judge, s) && CanRun(log, batchSize, s, steps) && RunPredictsNext(judge, log, batchSize, s, steps)
    ensures Judged(judge, After(log, batchSize, s, steps))
    decreases |steps|
  {
    if steps != [] {
      StepKeepsJudged(judge, log, batchSize, s, steps[0]);
      RunKeepsJudged(judge, log, batchSize, Apply(log, batchSize, s, steps[0]), steps[1..]);
    }
  }

  /** In every interleaving: if each prediction a worker makes is the one for the item it has come to, every result ever
      appended carries the record id and the prediction of its own entry. */
  lemma EachGetsItsOwn(judge: Judge, log: Log, batchSize: nat, numWorkers: nat, steps: seq<Step>)
    requires CanRun(log, batchSize, Start(numWorkers), steps)
    requires RunPredictsNext(judge, log, batchSize, Start(numWorkers), steps)
    ensures forall o | o in After(log, batchSize, Start(numWorkers), steps).outputs ::
              o.probability == judge(o.entry) && log(o.entry) == Good(o.recordId)
  {
    RunKeepsJudged(judge, log, batchSize, Start(numWorkers), steps);
    EveryInterleaving(log, batchSize, numWorkers, steps);
  }

  /** An acknowledgement that succeeds clears exactly the worker's raw entries: they are acknowledged, no longer pending
      and no longer stored; every other entry stays as it was. */
  lemma AckClears(log: Log, batchSize: nat, s: State, w: nat, id: nat)
    requires Enabled(batchSize, s, Ack(w, true, true))
    ensures (var t := Apply(log, batchSize, s, Ack(w, true, true));
             if id in s.workers[w].raw then id in t.acked && id !in t.pending && id !in t.stream
             else (id in t.acked <==> id in s.acked) && (id in t.pending <==> id in s.pending)
                  && (id in t.stream <==> id in s.stream))
  {}
}
