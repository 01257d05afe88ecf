/** The pool of USB transfers (src/libosmo-fl2k.c): the sample worker fills empty transfers while completion
    callbacks recycle submitted ones and promote the filled one with the lowest sequence number. The two
    threads are a state machine whose steps are the single writes to `state` and `seq`, the scans, the
    completions and the submissions, interleaved in any order. */
module XferPool {
  import opened Options

  datatype BufState = Empty | Submitted | Filled

  datatype Info = Info(num: nat, state: BufState)

  // ---------- the scan ----------

  /** Which transfer the scan returns: the first empty one, or the filled one with the lowest number
      (the first of those); never a submitted one. */
  ghost predicate IsNext(info: seq<Info>, state: BufState, r: Option<nat>) {
    match r
    case None => state == Submitted || forall k :: 0 <= k < |info| ==> info[k].state != state
    case Some(i) =>
      && state != Submitted && i < |info| && info[i].state == state
      && (state == Empty ==> forall k :: 0 <= k < i ==> info[k].state != Empty)
      && (state == Filled ==> forall k :: 0 <= k < |info| && info[k].state == Filled ==>
            info[i].num < info[k].num || (info[i].num == info[k].num && i <= k))
  }

  method GetNextXfer(info: array<Info>, state: BufState) returns (r: Option<nat>)
    ensures IsNext(info[..], state, r)
  {
    var nextBuf: Option<nat> := None;
    var nextSeq: nat := 0;
    for i := 0 to info.Length
      invariant state == Empty ==> nextBuf.None?
      invariant nextBuf.None? ==> forall k :: 0 <= k < i ==> info[k].state != state
      invariant nextBuf.Some? ==>
        (nextBuf.value < i && info[nextBuf.value] == Info(nextSeq, state)
         && forall k :: 0 <= k < i && info[k].state == state ==>
              nextSeq < info[k].num || (nextSeq == info[k].num && nextBuf.value <= k))
    {
      if info[i].state == state {
        if state == Empty {
          return Some(i);
        } else if info[i].num < nextSeq || nextBuf.None? {
          nextSeq := info[i].num;
          nextBuf := Some(i);
        }
      }
    }
    if state == Filled && nextBuf.Some? {
      return nextBuf;
    }
    return None;
  }

  // ---------- the state machine ----------

  /** A buffer of samples from the application, of which only the identity matters here. */
  type Block = int

  /** Where the sample worker is: asking the application, holding a block of samples, converting it into
      transfer i, done with that, or having numbered the transfer. */
  datatype Worker = Idle | Holding(block: Block) | Filling(i: nat, block: Block) | Copied(i: nat, block: Block)
                  | Numbered(i: nat)

  /** Where the callback for transfer c is; j is the filled transfer that takes its place. */
  datatype Callback = Quiet | Completed(c: nat) | Chosen(c: nat, j: nat) | Marked(c: nat, j: nat) | Replaced(c: nat)
                    | Starved(c: nat) | Resubmitted(c: nat)

  datatype State = State(
    info: seq<Info>, data: seq<Block>, inFlight: set<nat>, worker: Worker, callback: Callback,
    bufCnt: nat, underflows: nat,
    sent: seq<nat>,        // sequence numbers of fresh submissions, in order
    carried: seq<Block>,   // what those transfers held when they were submitted
    blocks: seq<Block>,    // the blocks that got a number, in that order
    completions: nat, produced: nat, dropped: nat)

  datatype Step = Ask(block: Block) | Take(i: nat) | Drop | Copy | Number | Publish
                | Complete(c: nat) | Choose(j: nat) | Starve | Mark | Submit | Recycle | Resubmit | CountUnderflow

  ghost predicate Next(s: State, t: State, step: Step) {
    match step
    // the sample worker
    case Ask(block) => s.worker == Idle && t == s.(worker := Holding(block), produced := s.produced + 1)
    case Take(i) =>
      s.worker.Holding? && IsNext(s.info, Empty, Some(i)) && t == s.(worker := Filling(i, s.worker.block))
    case Drop =>
      s.worker.Holding? && IsNext(s.info, Empty, None) && t == s.(worker := Idle, dropped := s.dropped + 1)
    case Copy =>
      && s.worker.Filling? && s.worker.i < |s.data|
      && t == s.(worker := Copied(s.worker.i, s.worker.block), data := s.data[s.worker.i := s.worker.block])
    case Number =>
      && s.worker.Copied? && s.worker.i < |s.info|
      && t == s.(worker := Numbered(s.worker.i), bufCnt := s.bufCnt + 1, blocks := s.blocks + [s.worker.block],
                 info := s.info[s.worker.i := s.info[s.worker.i].(num := s.bufCnt)])
    case Publish =>
      && s.worker.Numbered? && s.worker.i < |s.info|
      && t == s.(worker := Idle, info := s.info[s.worker.i := s.info[s.worker.i].(state := Filled)])
    // the device completes a transfer, and its callback runs
    case Complete(c) =>
      && s.callback == Quiet && c in s.inFlight
      && t == s.(callback := Completed(c), inFlight := s.inFlight - {c}, completions := s.completions + 1)
    case Choose(j) =>
      s.callback.Completed? && IsNext(s.info, Filled, Some(j)) && t == s.(callback := Chosen(s.callback.c, j))
    case Starve =>
      s.callback.Completed? && IsNext(s.info, Filled, None) && t == s.(callback := Starved(s.callback.c))
    case Mark =>
      && s.callback.Chosen? && s.callback.j < |s.info|
      && t == s.(callback := Marked(s.callback.c, s.callback.j),
                 info := s.info[s.callback.j := s.info[s.callback.j].(state := Submitted)])
    case Submit =>
      && s.callback.Marked? && s.callback.j < |s.info| && s.callback.j < |s.data|
      && t == s.(callback := Replaced(s.callback.c), inFlight := s.inFlight + {s.callback.j},
                 sent := s.sent + [s.info[s.callback.j].num], carried := s.carried + [s.data[s.callback.j]])
    case Recycle =>
      && s.callback.Replaced? && s.callback.c < |s.info|
      && t == s.(callback := Quiet, info := s.info[s.callback.c := s.info[s.callback.c].(state := Empty)])
    case Resubmit =>
      s.callback.Starved? && t == s.(callback := Resubmitted(s.callback.c), inFlight := s.inFlight + {s.callback.c})
    case CountUnderflow =>
      s.callback.Resubmitted? && t == s.(callback := Quiet, underflows := s.underflows + 1)
  }

  /** The numbers below n. */
  function Below(n: nat): (r: set<nat>)
    ensures (forall i: nat :: i in r <==> i < n) && |r| == n
  {
    if n == 0 then {} else Below(n - 1) + {n - 1}
  }

  /** The states of the transfers after n of the n + 2 have been submitted. */
  function Primed(n: nat): (r: seq<Info>)
    ensures |r| == n + 2
  {
    seq(n + 2, i => Info(0, if i < n then Submitted else Empty))
  }

  function Initial(n: nat): State {
    State(Primed(n), seq(n + 2, _ => 0), Below(n), Idle, Quiet, 0, 0, [], [], [], 0, 0, 0)
  }

  /** fl2k_alloc_submit_transfers, as far as the states of the transfers go. */
  method AllocSubmitTransfers(xferNum: nat) returns (info: array<Info>)
    ensures fresh(info) && info[..] == Primed(xferNum)
  {
    info := new Info[xferNum + 2](_ => Info(0, Empty));
    for i := 0 to xferNum + 2
      invariant forall k :: 0 <= k < info.Length ==> info[k] == Info(0, Empty)
    {
      info[i] := info[i].(state := Empty);
    }
    for i := 0 to xferNum
      invariant forall k :: 0 <= k < info.Length ==> info[k] == Info(0, if k < i then Submitted else Empty)
    {
      info[i] := info[i].(state := Submitted);
    }
  }

  ghost predicate Leads(s: State, t: State) {
    exists step :: Next(s, t, step)
  }

  /** A run: each state follows from the one before by some step. */
  ghost predicate Run(n: nat, states: seq<State>) {
    states != [] &&
    var last := |states| - 1;
    if last == 0 then states[0] == Initial(n) else Run(n, states[..last]) && Leads(states[last - 1], states[last])
  }

  // ---------- the invariant ----------

  /** Transfers whose state is Submitted although they are not with the device: the one being called back
      and the one about to take its place. */
  function Between(c: Callback): set<nat> {
    match c
    case Quiet => {}
    case Completed(c) => {c}
    case Chosen(c, _) => {c}
    case Marked(c, j) => {c, j}
    case Replaced(c) => {c}
    case Starved(c) => {c}
    case Resubmitted(_) => {}
  }

  /** The device is one transfer short between a completion and the submission that answers it. */
  predicate OneShort(c: Callback) {
    c.Completed? || c.Chosen? || c.Marked? || c.Starved?
  }

  /** The worker is busy with a transfer. */
  predicate AtTransfer(w: Worker) {
    w.Filling? || w.Copied? || w.Numbered?
  }

  ghost predicate PoolInv(n: nat, s: State) {
    && |s.info| == n + 2
    && (forall i :: i in s.inFlight ==> i < |s.info|)
    && (forall i :: i in Between(s.callback) ==> i < |s.info| && i !in s.inFlight)
    && (forall i: nat :: i < |s.info| ==>
          (s.info[i].state == Submitted <==> i in s.inFlight || i in Between(s.callback)))
    && |s.inFlight| + (if OneShort(s.callback) then 1 else 0) == n
    && (s.callback.Chosen? || s.callback.Marked? ==> s.callback.c != s.callback.j)
    && (AtTransfer(s.worker) ==> s.worker.i < |s.info| && s.info[s.worker.i].state == Empty)
  }

  /** The numbers waiting in filled transfers are those from First to Last - 1. */
  function First(s: State): nat {
    |s.sent| + if s.callback.Marked? then 1 else 0
  }

  function Last(s: State): int {
    s.bufCnt - if s.worker.Numbered? then 1 else 0
  }

  ghost predicate Waiting(s: State, i: int, number: nat) {
    0 <= i < |s.info| && s.info[i] == Info(number, Filled)
  }

  ghost predicate HasNumber(s: State, number: nat) {
    exists i :: Waiting(s, i, number)
  }

  ghost predicate OrderInv(s: State) {
    && First(s) <= Last(s)
    && (forall i :: 0 <= i < |s.info| && s.info[i].state == Filled ==> First(s) <= s.info[i].num < Last(s))
    && (forall i, k :: 0 <= i < k < |s.info| && s.info[i].state == Filled && s.info[k].state == Filled ==>
          s.info[i].num != s.info[k].num)
    && (forall number: nat :: First(s) <= number < Last(s) ==> HasNumber(s, number))
    && (forall k :: 0 <= k < |s.sent| ==> s.sent[k] == k)
    && (s.worker.Numbered? ==> s.worker.i < |s.info| && s.info[s.worker.i].num == s.bufCnt - 1)
    && (s.callback.Chosen? ==> Waiting(s, s.callback.j, |s.sent|))
    && (s.callback.Marked? ==> s.callback.j < |s.info| && s.info[s.callback.j].num == |s.sent|)
  }

  predicate CountInv(s: State) {
    && s.completions == |s.sent| + s.underflows + (if OneShort(s.callback) || s.callback.Resubmitted? then 1 else 0)
    && s.produced == s.bufCnt + s.dropped
                   + (if s.worker.Holding? || s.worker.Filling? || s.worker.Copied? then 1 else 0)
  }

  /** A numbered transfer that waits, or is on its way to the device, holds the block with its number. */
  ghost predicate DataInv(s: State) {
    && |s.data| == |s.info| && |s.blocks| == s.bufCnt && |s.carried| == |s.sent| <= s.bufCnt
    && (forall k :: 0 <= k < |s.carried| ==> s.carried[k] == s.blocks[k])
    && (forall i :: 0 <= i < |s.info| && s.info[i].state == Filled ==> HoldsItsBlock(s, i))
    && (s.worker.Copied? ==> s.worker.i < |s.data| && s.data[s.worker.i] == s.worker.block)
    && (s.worker.Numbered? ==> s.worker.i < |s.info| && HoldsItsBlock(s, s.worker.i))
    && (s.callback.Marked? ==> s.callback.j < |s.info| && HoldsItsBlock(s, s.callback.j))
  }

  predicate HoldsItsBlock(s: State, i: nat)
    requires i < |s.info|
  {
    i < |s.data| && s.info[i].num < |s.blocks| && s.data[i] == s.blocks[s.info[i].num]
  }

  ghost predicate Inv(n: nat, s: State) {
    PoolInv(n, s) && OrderInv(s) && CountInv(s) && DataInv(s)
  }

  lemma InitialInv(n: nat)
    ensures Inv(n, Initial(n))
  {}

  predicate InWorker(step: Step) {
    step.Ask? || step.Take? || step.Drop? || step.Copy? || step.Number? || step.Publish?
  }

  lemma PoolInvWorker(n: nat, s: State, t: State, step: Step)
    requires PoolInv(n, s) && Next(s, t, step) && InWorker(step)
    ensures PoolInv(n, t)
  {}

  lemma PoolInvComplete(n: nat, s: State, t: State, step: Step)
    requires PoolInv(n, s) && Next(s, t, step) && step.Complete?
    ensures PoolInv(n, t)
  {
    assert |t.inFlight| == |s.inFlight| - 1;
  }

  lemma PoolInvResubmit(n: nat, s: State, t: State, step: Step)
    requires PoolInv(n, s) && Next(s, t, step) && step.Resubmit?
    ensures PoolInv(n, t)
  {
    assert |t.inFlight| == |s.inFlight| + 1;
  }

  lemma PoolInvScan(n: nat, s: State, t: State, step: Step)
    requires PoolInv(n, s) && Next(s, t, step) && (step.Choose? || step.Starve? || step.CountUnderflow?)
    ensures PoolInv(n, t)
  {
    assert t.info == s.info && t.inFlight == s.inFlight && Between(t.callback) == Between(s.callback);
  }

  lemma PoolInvMark(n: nat, s: State, t: State, step: Step)
    requires PoolInv(n, s) && Next(s, t, step) && step.Mark? && s.info[s.callback.j].state == Filled
    ensures PoolInv(n, t)
  {}

  lemma PoolInvSubmit(n: nat, s: State, t: State, step: Step)
    requires PoolInv(n, s) && Next(s, t, step) && step.Submit?
    ensures PoolInv(n, t)
  {
    assert s.callback.j !in s.inFlight && |t.inFlight| == |s.inFlight| + 1;
  }

  lemma PoolInvRecycle(n: nat, s: State, t: State, step: Step)
    requires PoolInv(n, s) && Next(s, t, step) && step.Recycle?
    ensures PoolInv(n, t)
  {}

  lemma PoolInvKept(n: nat, s: State, t: State, step: Step)
    requires Inv(n, s) && Next(s, t, step)
    ensures PoolInv(n, t)
  {
    match step {
      case Ask(_) | Take(_) | Drop | Copy | Number | Publish => PoolInvWorker(n, s, t, step);
      case Complete(_) => PoolInvComplete(n, s, t, step);
      case Resubmit => PoolInvResubmit(n, s, t, step);
      case Choose(_) | Starve | CountUnderflow => PoolInvScan(n, s, t, step);
      case Mark => PoolInvMark(n, s, t, step);
      case Submit => PoolInvSubmit(n, s, t, step);
      case Recycle => PoolInvRecycle(n, s, t, step);
    }
  }

  lemma CountInvKept(n: nat, s: State, t: State, step: Step)
    requires CountInv(s) && Next(s, t, step)
    ensures CountInv(t)
  {}

  lemma DataInvWorker(n: nat, s: State, t: State, step: Step)
    requires PoolInv(n, s) && DataInv(s) && Next(s, t, step) && (step.Ask? || step.Take? || step.Drop?)
    ensures DataInv(t)
  {
    forall i | 0 <= i < |t.info| && t.info[i].state == Filled
      ensures HoldsItsBlock(t, i)
    {
      assert HoldsItsBlock(s, i);
    }
  }

  /** The transfer written to is empty, so no block that waits is overwritten. */
  lemma DataInvCopy(n: nat, s: State, t: State)
    requires PoolInv(n, s) && DataInv(s) && Next(s, t, Copy)
    ensures DataInv(t)
  {
    forall i | 0 <= i < |t.info| && t.info[i].state == Filled
      ensures HoldsItsBlock(t, i)
    {
      assert HoldsItsBlock(s, i);
    }
  }

  lemma DataInvNumber(n: nat, s: State, t: State)
    requires PoolInv(n, s) && DataInv(s) && Next(s, t, Number)
    ensures DataInv(t)
  {
    forall i | 0 <= i < |t.info| && t.info[i].state == Filled
      ensures HoldsItsBlock(t, i)
    {
      assert HoldsItsBlock(s, i);
    }
  }

  lemma DataInvPublish(n: nat, s: State, t: State)
    requires PoolInv(n, s) && DataInv(s) && Next(s, t, Publish)
    ensures DataInv(t)
  {
    forall i | 0 <= i < |t.info| && t.info[i].state == Filled
      ensures HoldsItsBlock(t, i)
    {
      assert HoldsItsBlock(s, i);
    }
  }

  /** Steps that change neither the states nor the contents of transfers. */
  lemma DataInvQuiet(n: nat, s: State, t: State, step: Step)
    requires DataInv(s) && Next(s, t, step)
    requires step.Complete? || step.Choose? || step.Starve? || step.Resubmit? || step.CountUnderflow?
    ensures DataInv(t)
  {
    forall i | 0 <= i < |t.info| && t.info[i].state == Filled
      ensures HoldsItsBlock(t, i)
    {
      assert HoldsItsBlock(s, i);
    }
  }

  lemma DataInvMark(s: State, t: State)
    requires DataInv(s) && Next(s, t, Mark) && Waiting(s, s.callback.j, |s.sent|)
    requires s.worker.Numbered? ==> s.worker.i < |s.info| && s.info[s.worker.i].state == Empty
    ensures DataInv(t)
  {
    forall i | 0 <= i < |t.info| && t.info[i].state == Filled
      ensures HoldsItsBlock(t, i)
    {
      assert HoldsItsBlock(s, i);
    }
    assert HoldsItsBlock(s, s.callback.j);
  }

  lemma DataInvSubmit(s: State, t: State)
    requires DataInv(s) && Next(s, t, Submit) && s.info[s.callback.j].num == |s.sent|
    ensures DataInv(t)
  {
    forall i | 0 <= i < |t.info| && t.info[i].state == Filled
      ensures HoldsItsBlock(t, i)
    {
      assert HoldsItsBlock(s, i);
    }
  }

  lemma DataInvRecycle(s: State, t: State)
    requires DataInv(s) && Next(s, t, Recycle)
    ensures DataInv(t)
  {
    forall i | 0 <= i < |t.info| && t.info[i].state == Filled
      ensures HoldsItsBlock(t, i)
    {
      assert HoldsItsBlock(s, i);
    }
  }

  lemma DataInvKept(n: nat, s: State, t: State, step: Step)
    requires Inv(n, s) && Next(s, t, step)
    ensures DataInv(t)
  {
    match step {
      case Ask(_) | Take(_) | Drop => DataInvWorker(n, s, t, step);
      case Copy => DataInvCopy(n, s, t);
      case Number => DataInvNumber(n, s, t);
      case Publish => DataInvPublish(n, s, t);
      case Mark => DataInvMark(s, t);
      case Submit => DataInvSubmit(s, t);
      case Recycle => DataInvRecycle(s, t);
      case _ => DataInvQuiet(n, s, t, step);
    }
  }

  lemma InvKept(n: nat, s: State, t: State, step: Step)
    requires Inv(n, s) && Next(s, t, step)
    ensures Inv(n, t)
  {
    PoolInvKept(n, s, t, step);
    OrderInvKept(n, s, t, step);
    CountInvKept(n, s, t, step);
    DataInvKept(n, s, t, step);
  }

  /** Steps that leave the filled transfers and their numbers alone. */
  lemma OrderInvFrame(s: State, t: State, step: Step)
    requires OrderInv(s) && Next(s, t, step)
    requires step.Ask? || step.Take? || step.Drop? || step.Copy?
          || step.Complete? || step.Starve? || step.Resubmit? || step.CountUnderflow?
    ensures OrderInv(t)
  {
    assert t.info == s.info && t.sent == s.sent && First(t) == First(s) && Last(t) == Last(s);
    forall number: nat | First(t) <= number < Last(t)
      ensures HasNumber(t, number)
    {
      assert HasNumber(s, number);
      var i :| Waiting(s, i, number);
      assert Waiting(t, i, number);
    }
  }

  lemma OrderInvKept(n: nat, s: State, t: State, step: Step)
    requires Inv(n, s) && Next(s, t, step)
    ensures OrderInv(t)
  {
    match step {
      case Number => NumberKeepsOrder(n, s, t);
      case Publish => PublishKeepsOrder(n, s, t);
      case Choose(j) => ChooseKeepsOrder(n, s, t, j);
      case Mark => MarkKeepsOrder(n, s, t);
      case Submit => SubmitKeepsOrder(n, s, t);
      case Recycle => RecycleKeepsOrder(n, s, t);
      case _ => OrderInvFrame(s, t, step);
    }
  }

  lemma NumberKeepsOrder(n: nat, s: State, t: State)
    requires Inv(n, s) && Next(s, t, Number)
    ensures OrderInv(t)
  {
    forall number: nat | First(t) <= number < Last(t)
      ensures HasNumber(t, number)
    {
      assert HasNumber(s, number);
      var i :| Waiting(s, i, number);
      assert Waiting(t, i, number);
    }
  }

  /** The number just written becomes the last one waiting. */
  lemma PublishKeepsOrder(n: nat, s: State, t: State)
    requires Inv(n, s) && Next(s, t, Publish)
    ensures OrderInv(t)
  {
    forall number: nat | First(t) <= number < Last(t)
      ensures HasNumber(t, number)
    {
      if number == s.bufCnt - 1 {
        assert Waiting(t, s.worker.i, number);
      } else {
        assert HasNumber(s, number);
        var i :| Waiting(s, i, number);
        assert Waiting(t, i, number);
      }
    }
  }

  /** The filled transfer with the lowest number is the one whose number comes next. */
  lemma ChooseKeepsOrder(n: nat, s: State, t: State, j: nat)
    requires Inv(n, s) && Next(s, t, Choose(j))
    ensures OrderInv(t)
  {
    assert HasNumber(s, First(s));
    var k :| Waiting(s, k, First(s));
    assert s.info[j].num == First(s);
    forall number: nat | First(t) <= number < Last(t)
      ensures HasNumber(t, number)
    {
      assert HasNumber(s, number);
      var i :| Waiting(s, i, number);
      assert Waiting(t, i, number);
    }
  }

  lemma MarkKeepsOrder(n: nat, s: State, t: State)
    requires Inv(n, s) && Next(s, t, Mark)
    ensures OrderInv(t)
  {
    forall number: nat | First(t) <= number < Last(t)
      ensures HasNumber(t, number)
    {
      assert HasNumber(s, number);
      var i :| Waiting(s, i, number);
      assert i != s.callback.j;
      assert Waiting(t, i, number);
    }
  }

  lemma SubmitKeepsOrder(n: nat, s: State, t: State)
    requires Inv(n, s) && Next(s, t, Submit)
    ensures OrderInv(t)
  {
    forall number: nat | First(t) <= number < Last(t)
      ensures HasNumber(t, number)
    {
      assert HasNumber(s, number);
      var i :| Waiting(s, i, number);
      assert Waiting(t, i, number);
    }
  }

  lemma RecycleKeepsOrder(n: nat, s: State, t: State)
    requires Inv(n, s) && Next(s, t, Recycle)
    ensures OrderInv(t)
  {
    forall number: nat | First(t) <= number < Last(t)
      ensures HasNumber(t, number)
    {
      assert HasNumber(s, number);
      var i :| Waiting(s, i, number);
      assert i != s.callback.c;
      assert Waiting(t, i, number);
    }
  }

  /** The invariant holds in every state of every run. */
  lemma {:induction false} RunKeepsInv(n: nat, states: seq<State>, k: nat)
    requires Run(n, states) && k < |states|
    ensures Inv(n, states[k])
    decreases |states|
  {
    var last := |states| - 1;
    if last == 0 {
      InitialInv(n);
    } else if k < last {
      RunKeepsInv(n, states[..last], k);
    } else {
      RunKeepsInv(n, states[..last], last - 1);
      var s, t := states[last - 1], states[last];
      var step :| Next(s, t, step);
      InvKept(n, s, t, step);
    }
  }

  // ---------- what holds in every reachable state ----------

  /** First in, first out, without gaps: fresh submissions carry 0, 1, 2, ... in this order and each once,
      and the numbers waiting in filled transfers are exactly those between the next to send and the last
      published, each in one transfer. */
  lemma FifoWithoutGaps(n: nat, states: seq<State>, k: nat)
    requires Run(n, states) && k < |states|
    ensures var s := states[k];
      && s.sent == seq(|s.sent|, i => i)
      && (forall number: nat :: HasNumber(s, number) <==> First(s) <= number < Last(s))
      && (forall i, j, number: nat :: Waiting(s, i, number) && Waiting(s, j, number) ==> i == j)
  {
    RunKeepsInv(n, states, k);
  }

  /** The k-th fresh submission carries the block that was given number k. */
  lemma BlocksArrive(n: nat, states: seq<State>, k: nat)
    requires Run(n, states) && k < |states|
    ensures states[k].carried <= states[k].blocks && |states[k].carried| == |states[k].sent|
    ensures states[k].bufCnt == |states[k].blocks|
  {
    RunKeepsInv(n, states, k);
  }

  /** Between callbacks exactly n transfers are with the device, and never more; the transfer the sample
      worker writes to is never among them, nor among the ones a callback is dealing with. */
  lemma PoolConserved(n: nat, states: seq<State>, k: nat)
    requires Run(n, states) && k < |states|
    ensures var s := states[k];
      && |s.inFlight| <= n && (s.callback == Quiet ==> |s.inFlight| == n)
      && (AtTransfer(s.worker) ==> s.worker.i !in s.inFlight && s.worker.i !in Between(s.callback))
      && (s.callback == Quiet ==> s.completions == |s.sent| + s.underflows)
      && (s.worker == Idle ==> s.produced == s.bufCnt + s.dropped)
  {
    RunKeepsInv(n, states, k);
  }

  /** The filled transfers whose numbers lie in [lo, hi). */
  ghost function Holders(info: seq<Info>, lo: nat, hi: int): set<nat> {
    set i: nat | i < |info| && info[i].state == Filled && lo <= info[i].num < hi
  }

  ghost predicate OneHolderEach(info: seq<Info>, lo: nat, hi: int) {
    forall number: nat :: lo <= number < hi ==> HasHolder(info, number)
  }

  ghost predicate HasHolder(info: seq<Info>, number: nat) {
    exists i: nat :: IsHolder(info, i, number)
  }

  ghost predicate IsHolder(info: seq<Info>, i: nat, number: nat) {
    i < |info| && info[i] == Info(number, Filled) && forall k :: 0 <= k < |info| && info[k] == info[i] ==> k == i
  }

  lemma {:induction false} HoldersCount(info: seq<Info>, lo: nat, hi: int)
    requires OneHolderEach(info, lo, hi) && lo <= hi
    ensures |Holders(info, lo, hi)| == hi - lo
    decreases hi
  {
    if hi == lo {
      assert Holders(info, lo, hi) == {};
    } else {
      HoldersCount(info, lo, hi - 1);
      var number: nat := hi - 1;
      assert HasHolder(info, number);
      var i: nat :| IsHolder(info, i, number);
      assert Holders(info, lo, hi) == Holders(info, lo, hi - 1) + {i};
    }
  }

  lemma WaitingCount(n: nat, s: State)
    requires Inv(n, s)
    ensures |Holders(s.info, First(s), Last(s))| == Last(s) - First(s)
  {
    forall number: nat | First(s) <= number < Last(s)
      ensures HasHolder(s.info, number)
    {
      assert HasNumber(s, number);
      var i: nat :| Waiting(s, i, number);
      assert IsHolder(s.info, i, number);
    }
    HoldersCount(s.info, First(s), Last(s));
  }

  lemma SubsetCount(a: set<nat>, b: set<nat>)
    requires a <= b
    ensures |a| <= |b|
  {
    assert b == a + (b - a);
  }

  /** Submitted, filled and being-numbered transfers are different ones, so they fit into the pool together. */
  lemma PoolRoom(n: nat, s: State)
    requires PoolInv(n, s)
    ensures |s.inFlight| + |Between(s.callback)| + |Holders(s.info, First(s), Last(s))|
              + (if s.worker.Numbered? then 1 else 0) <= n + 2
  {
    var filled, between := Holders(s.info, First(s), Last(s)), Between(s.callback);
    var worker: set<nat> := if s.worker.Numbered? then {s.worker.i} else {};
    RoomByState(s.info, s.inFlight, between, filled, worker);
  }

  /** Transfers in different states are different. */
  lemma RoomByState(info: seq<Info>, a: set<nat>, b: set<nat>, filled: set<nat>, empty: set<nat>)
    requires a !! b && |info| >= 2 && forall i :: i in a || i in b ==> i < |info| && info[i].state == Submitted
    requires forall i :: i in filled ==> i < |info| && info[i].state == Filled
    requires forall i :: i in empty ==> i < |info| && info[i].state == Empty
    ensures |a| + |b| + |filled| + |empty| <= |info|
  {
    DisjointCount(a, b, filled, empty, Below(|info|));
  }

  lemma DisjointCount(a: set<nat>, b: set<nat>, c: set<nat>, d: set<nat>, all: set<nat>)
    requires a !! b && (a + b) !! c && (a + b + c) !! d && a + b + c + d <= all
    ensures |a| + |b| + |c| + |d| <= |all|
  {
    assert |a + b| == |a| + |b|;
    assert |a + b + c| == |a + b| + |c|;
    assert |a + b + c + d| == |a + b + c| + |d|;
    SubsetCount(a + b + c + d, all);
  }

  /** The two spare transfers bound the delay: never more than two blocks have been numbered and not sent. */
  lemma AtMostTwoBehind(n: nat, states: seq<State>, k: nat)
    requires Run(n, states) && k < |states|
    ensures 0 <= states[k].bufCnt - |states[k].sent| <= 2
  {
    RunKeepsInv(n, states, k);
    WaitingCount(n, states[k]);
    PoolRoom(n, states[k]);
    BetweenCount(n, states[k]);
  }

  lemma BetweenCount(n: nat, s: State)
    requires PoolInv(n, s)
    ensures |s.inFlight| + |Between(s.callback)| == if s.callback.Marked? || s.callback.Replaced? then n + 1 else n
  {}

  // ---------- the threads' code, run without interruption ----------

  /** What libusb reports about a transfer; Failed stands for everything but completed and cancelled. */
  datatype Status = Done | Cancelled | Failed

  /** The callback for transfer c. `next` is the filled transfer submitted instead; without one, c is submitted again
      and an underflow is counted. `noDevice` is what a submission would answer, `lost` whether to cancel. */
  method LibusbCallback(info: array<Info>, c: nat, status: Status, running: bool, noDevice: bool, underflows: nat)
    returns (next: Option<nat>, underflows': nat, lost: bool)
    requires c < info.Length
    modifies info
    ensures status.Done? && running ==> IsNext(old(info[..]), Filled, next)
    ensures !(status.Done? && running) ==> next == None
    ensures info[..] == match next
      case Some(j) => old(info[..])[j := old(info[j]).(state := Submitted)][c := old(info[c]).(state := Empty)]
      case None => old(info[..])
    ensures underflows' == underflows + if status.Done? && running && next == None then 1 else 0
    ensures lost <==> status.Failed? || (status.Done? && running && noDevice)
  {
    next, underflows', lost := None, underflows, status.Failed?;
    if status.Done? && running {
      next := GetNextXfer(info, Filled);
      if next.Some? {
        var j := next.value;
        info[j] := info[j].(state := Submitted);
        info[c] := info[c].(state := Empty);
      } else {
        underflows' := underflows + 1;
      }
      lost := noDevice;
    }
  }

  /** Sleeping until a callback signals; `meanwhile` is what the other threads have made of the transfers by then. */
  method Sleep(info: array<Info>, meanwhile: seq<Info>)
    requires |meanwhile| == info.Length
    modifies info
    ensures info[..] == meanwhile
  {
    forall k | 0 <= k < info.Length {
      info[k] := meanwhile[k];
    }
  }

  /** One round of the sample worker with the next block number. Without an empty transfer it sleeps, and looks once
      more if the device is still running then; None if the block is skipped. */
  method FillNext(info: array<Info>, bufCnt: nat, meanwhile: seq<Info>, running: bool) returns (filled: Option<nat>)
    requires |meanwhile| == info.Length
    modifies info
    ensures var found := IsNext(old(info[..]), Empty, filled) && filled.Some?;
      && (!found ==> IsNext(old(info[..]), Empty, None))
      && (!found && !running ==> filled == None)
      && (!found && running ==> IsNext(meanwhile, Empty, filled))
      && info[..] == match filled
        case Some(i) => (if found then old(info[..]) else meanwhile)[i := Info(bufCnt, Filled)]
        case None => meanwhile
  {
    filled := GetNextXfer(info, Empty);
    if filled == None {
      Sleep(info, meanwhile);
      if !running {
        return;
      }
      filled := GetNextXfer(info, Empty);
      if filled == None {
        return;
      }
    }
    info[filled.value] := info[filled.value].(num := bufCnt);
    info[filled.value] := info[filled.value].(state := Filled);
  }

  /** An uninterrupted round of the worker that finds an empty transfer is this series of steps. */
  lemma FillingIsSteps(s: State, i: nat, block: Block)
    returns (s1: State, s2: State, s3: State, s4: State, t: State)
    requires |s.data| == |s.info| && s.worker == Idle && IsNext(s.info, Empty, Some(i))
    ensures Next(s, s1, Ask(block)) && Next(s1, s2, Take(i)) && Next(s2, s3, Copy)
    ensures Next(s3, s4, Number) && Next(s4, t, Publish)
    ensures t.info == s.info[i := Info(s.bufCnt, Filled)] && t.data == s.data[i := block] && t.bufCnt == s.bufCnt + 1
  {
    s1 := s.(worker := Holding(block), produced := s.produced + 1);
    s2 := s1.(worker := Filling(i, block));
    s3 := s2.(worker := Copied(i, block), data := s.data[i := block]);
    s4 := s3.(worker := Numbered(i), bufCnt := s.bufCnt + 1, blocks := s.blocks + [block],
              info := s.info[i := s.info[i].(num := s.bufCnt)]);
    t := s4.(worker := Idle, info := s4.info[i := s4.info[i].(state := Filled)]);
  }

  /** An uninterrupted callback that finds a filled transfer is this series of steps of the state machine. */
  lemma ReplacingIsSteps(s: State, c: nat, j: nat)
    returns (s1: State, s2: State, s3: State, s4: State, t: State)
    requires c < |s.info| == |s.data| && s.callback == Quiet && c in s.inFlight && IsNext(s.info, Filled, Some(j))
    ensures Next(s, s1, Complete(c)) && Next(s1, s2, Choose(j)) && Next(s2, s3, Mark)
    ensures Next(s3, s4, Submit) && Next(s4, t, Recycle)
    ensures t.info == s.info[j := s.info[j].(state := Submitted)][c := s.info[c].(state := Empty)]
  {
    s1 := s.(callback := Completed(c), inFlight := s.inFlight - {c}, completions := s.completions + 1);
    s2 := s1.(callback := Chosen(c, j));
    s3 := s2.(callback := Marked(c, j), info := s.info[j := s.info[j].(state := Submitted)]);
    s4, t := SubmitAndRecycle(s3, c, j);
  }

  lemma SubmitAndRecycle(s: State, c: nat, j: nat) returns (u: State, t: State)
    requires s.callback == Marked(c, j) && c < |s.info| && j < |s.info| == |s.data|
    ensures Next(s, u, Submit) && Next(u, t, Recycle) && t.info == s.info[c := s.info[c].(state := Empty)]
  {
    u := s.(callback := Replaced(c), inFlight := s.inFlight + {j}, sent := s.sent + [s.info[j].num],
            carried := s.carried + [s.data[j]]);
    t := u.(callback := Quiet, info := u.info[c := u.info[c].(state := Empty)]);
  }

  /** One that finds none is this series. */
  lemma UnderflowIsSteps(s: State, c: nat) returns (s1: State, s2: State, s3: State, t: State)
    requires s.callback == Quiet && c in s.inFlight && IsNext(s.info, Filled, None)
    ensures Next(s, s1, Complete(c)) && Next(s1, s2, Starve) && Next(s2, s3, Resubmit) && Next(s3, t, CountUnderflow)
    ensures t.info == s.info && t.inFlight == s.inFlight
  {
    s1 := s.(callback := Completed(c), inFlight := s.inFlight - {c}, completions := s.completions + 1);
    s2 := s1.(callback := Starved(c));
    s3 := s2.(callback := Resubmitted(c), inFlight := s2.inFlight + {c});
    t := s3.(callback := Quiet, underflows := s3.underflows + 1);
  }
}
