/** Token buckets filled by a timer signal, with the signal arriving between any two steps
    of the main program, also between the load and the store of one update. */
module TokenBucket {
  import opened Common

  const MYTBF_MAX: nat := 1024

  /** A bucket with its rate, its limit and its tokens, and what has happened to it: the
      tokens handed out and given back, and the timer ticks. `serial` tells apart the buckets
      that use a slot one after the other. */
  datatype Bucket = Bucket(cps: nat, burst: nat, token: int, serial: nat, granted: int, returned: int, ticks: nat)

  type Jobs = seq<Option<Bucket>>

  /** Where the main program stands in a call on the bucket in slot `pos`. */
  datatype Pc =
    | Idle
    | FetchWait(pos: nat, size: int)
    | FetchRead(pos: nat, size: int)
    | FetchLoad(pos: nat, n: int)
    | FetchStore(pos: nat, n: int, loaded: int)
    | ReturnLoad(pos: nat, size: int)
    | ReturnStore(pos: nat, size: int, loaded: int)
    | ReturnTest(pos: nat)
    | ReturnCap(pos: nat)

  datatype State = State(job: Jobs, created: nat, pc: Pc)

  datatype Event =
    | Tick
    | Init(cps: nat, burst: nat, memory: bool)
    | Fetch(at: nat, want: int)
    | Return(at: nat, back: int)
    | Destroy(at: nat)
    | Advance

  // ----- Steps -----

  /** What the signal handler does to one bucket. */
  function TickBucket(b: Bucket): Bucket {
    var token := b.token + b.cps;
    b.(token := if token > b.burst then b.burst else token, ticks := b.ticks + 1)
  }

  function TickSlot(slot: Option<Bucket>): Option<Bucket> {
    match slot
    case None => None
    case Some(b) => Some(TickBucket(b))
  }

  function TickAll(job: Jobs): Jobs {
    seq(|job|, i requires 0 <= i < |job| => TickSlot(job[i]))
  }

  /** The first free slot from i on. */
  function FreePos(job: Jobs, i: nat): (r: Option<nat>)
    requires i <= |job|
    ensures r.Some? ==> i <= r.value < |job| && job[r.value].None? && forall j :: i <= j < r.value ==> job[j].Some?
    ensures r.None? ==> forall j :: i <= j < |job| ==> job[j].Some?
    decreases |job| - i
  {
    if i == |job| then None else if job[i].None? then Some(i) else FreePos(job, i + 1)
  }

  predicate Live(job: Jobs, pos: nat) {
    pos < |job| && job[pos].Some?
  }

  function Put(job: Jobs, pos: nat, b: Bucket): Jobs
    requires pos < |job|
  {
    job[pos := Some(b)]
  }

  /** The next step of the call in progress. */
  function StepCall(s: State): State {
    match s.pc
    case Idle => s
    case FetchWait(pos, size) =>
      if !Live(s.job, pos) || s.job[pos].value.token <= 0 then s else s.(pc := FetchRead(pos, size))
    case FetchRead(pos, size) =>
      if !Live(s.job, pos) then s
      else s.(pc := FetchLoad(pos, if s.job[pos].value.token < size then s.job[pos].value.token else size))
    case FetchLoad(pos, n) =>
      if !Live(s.job, pos) then s else s.(pc := FetchStore(pos, n, s.job[pos].value.token))
    case FetchStore(pos, n, loaded) =>
      if !Live(s.job, pos) then s
      else var b := s.job[pos].value;
        s.(job := Put(s.job, pos, b.(token := loaded - n, granted := b.granted + n)), pc := Idle)
    case ReturnLoad(pos, size) =>
      if !Live(s.job, pos) then s else s.(pc := ReturnStore(pos, size, s.job[pos].value.token))
    case ReturnStore(pos, size, loaded) =>
      if !Live(s.job, pos) then s
      else var b := s.job[pos].value;
        s.(job := Put(s.job, pos, b.(token := loaded + size, returned := b.returned + size)), pc := ReturnTest(pos))
    case ReturnTest(pos) =>
      if !Live(s.job, pos) then s
      else s.(pc := if s.job[pos].value.token > s.job[pos].value.burst then ReturnCap(pos) else Idle)
    case ReturnCap(pos) =>
      if !Live(s.job, pos) then s
      else var b := s.job[pos].value;
        s.(job := Put(s.job, pos, b.(token := b.burst)), pc := Idle)
  }

  /** One event. The main program makes one call at a time, on buckets it has and only there
      with a positive size; anything else is refused and changes nothing. */
  function Next(s: State, e: Event): State {
    match e
    case Tick => s.(job := TickAll(s.job))
    case Advance => StepCall(s)
    case Init(cps, burst, memory) =>
      if s.pc != Idle || FreePos(s.job, 0).None? || !memory then s
      else
        var b := Bucket(cps, burst, 0, s.created, 0, 0, 0);
        s.(job := Put(s.job, FreePos(s.job, 0).value, b), created := s.created + 1)
    case Fetch(pos, size) =>
      if s.pc != Idle || !Live(s.job, pos) || size <= 0 then s else s.(pc := FetchWait(pos, size))
    case Return(pos, size) =>
      if s.pc != Idle || !Live(s.job, pos) || size <= 0 then s else s.(pc := ReturnLoad(pos, size))
    case Destroy(pos) => if s.pc != Idle || !Live(s.job, pos) then s else s.(job := s.job[pos := None])
  }

  function Start(): State {
    State(seq(MYTBF_MAX, _ => None), 0, Idle)
  }

  /** The state after a list of events. */
  function Run(events: seq<Event>): State {
    if events == [] then Start() else Next(Run(events[..|events| - 1]), events[|events| - 1])
  }

  // ----- What every state keeps -----

  /** The tokens the call in progress works with: those loaded, between load and store. */
  function Working(b: Bucket, pos: nat, pc: Pc): int {
    match pc
    case FetchStore(p, _, loaded) => if p == pos then loaded else b.token
    case ReturnStore(p, _, loaded) => if p == pos then loaded else b.token
    case _ => b.token
  }

  /** The limit holds except between the store and the cap of a return. */
  ghost predicate Limited(b: Bucket, pos: nat, pc: Pc) {
    match pc
    case FetchWait(p, size) => b.token <= b.burst && (p == pos ==> 0 < size)
    case FetchRead(p, size) => b.token <= b.burst && (p == pos ==> 0 < size && 0 < b.token)
    case FetchLoad(p, n) => b.token <= b.burst && (p == pos ==> 0 < n <= b.token)
    case FetchStore(p, n, loaded) => b.token <= b.burst && (p == pos ==> 0 < n <= loaded <= b.burst)
    case ReturnLoad(p, size) => b.token <= b.burst && (p == pos ==> 0 < size)
    case ReturnStore(p, size, loaded) => b.token <= b.burst && (p == pos ==> 0 < size && 0 <= loaded <= b.burst)
    case ReturnTest(p) => p == pos || b.token <= b.burst
    case ReturnCap(p) => if p == pos then b.burst <= b.token else b.token <= b.burst
    case Idle => b.token <= b.burst
  }

  /** Tokens handed out and at hand are covered by the ticks and the tokens given back. */
  ghost predicate Covered(b: Bucket, available: int) {
    b.granted + available <= b.cps * b.ticks + b.returned
  }

  ghost predicate BucketOk(b: Bucket, pos: nat, pc: Pc) {
    && 0 <= b.token && Limited(b, pos, pc)
    && Covered(b, b.token) && Covered(b, Working(b, pos, pc))
  }

  ghost predicate SlotOk(s: State, pos: nat)
    requires Live(s.job, pos)
  {
    BucketOk(s.job[pos].value, pos, s.pc) && s.job[pos].value.serial < s.created
  }

  ghost predicate Inv(s: State) {
    |s.job| == MYTBF_MAX && forall pos: nat :: Live(s.job, pos) ==> SlotOk(s, pos)
  }

  lemma TickBucketOk(b: Bucket, pos: nat, pc: Pc)
    requires BucketOk(b, pos, pc)
    ensures BucketOk(TickBucket(b), pos, pc)
  {
    assert b.cps * (b.ticks + 1) == b.cps * b.ticks + b.cps;
  }

  lemma TickKeeps(s: State, s': State)
    requires Inv(s) && s' == Next(s, Tick)
    ensures Inv(s')
  {
    forall pos: nat | Live(s'.job, pos) ensures SlotOk(s', pos) {
      assert Live(s.job, pos) && SlotOk(s, pos);
      TickBucketOk(s.job[pos].value, pos, s.pc);
    }
  }

  /** A call that starts or steps on without touching any bucket. */
  lemma PcKeeps(s: State, s': State, at: nat)
    requires Inv(s) && s' == s.(pc := s'.pc) && Live(s.job, at)
    requires forall pos: nat :: Live(s.job, pos) && pos != at ==> BucketOk(s.job[pos].value, pos, s'.pc)
    requires BucketOk(s.job[at].value, at, s'.pc)
    ensures Inv(s')
  {
    forall pos: nat | Live(s'.job, pos) ensures SlotOk(s', pos) {
      assert SlotOk(s, pos);
    }
  }

  ghost predicate About(pc: Pc, at: nat) {
    pc == Idle || pc.pos == at
  }

  /** For the other buckets only the limit matters. */
  lemma OthersOk(s: State, at: nat, pc: Pc)
    requires Inv(s) && About(s.pc, at) && About(pc, at)
    ensures forall pos: nat :: Live(s.job, pos) && pos != at ==> BucketOk(s.job[pos].value, pos, pc)
  {
    forall pos: nat | Live(s.job, pos) && pos != at ensures BucketOk(s.job[pos].value, pos, pc) {
      assert SlotOk(s, pos);
    }
  }

  /** A step that writes one bucket. */
  lemma PutKeeps(s: State, at: nat, b: Bucket, pc: Pc, s': State)
    requires Inv(s) && Live(s.job, at) && About(s.pc, at) && About(pc, at)
    requires b.serial == s.job[at].value.serial && BucketOk(b, at, pc)
    requires s' == s.(job := Put(s.job, at, b), pc := pc)
    ensures Inv(s')
  {
    OthersOk(s, at, pc);
    assert SlotOk(s, at);
    forall pos: nat | Live(s'.job, pos) ensures SlotOk(s', pos) {
      if pos != at { assert Live(s.job, pos) && SlotOk(s, pos); }
    }
  }

  lemma StepKeeps(s: State, s': State)
    requires Inv(s) && s' == StepCall(s) && s.pc != Idle && Live(s.job, s.pc.pos)
    ensures Inv(s')
  {
    var at := s.pc.pos;
    var b := s.job[at].value;
    assert SlotOk(s, at);
    match s.pc
    case FetchStore(_, n, loaded) =>
      PutKeeps(s, at, b.(token := loaded - n, granted := b.granted + n), Idle, s');
    case ReturnStore(_, size, loaded) =>
      PutKeeps(s, at, b.(token := loaded + size, returned := b.returned + size), ReturnTest(at), s');
    case ReturnCap(_) =>
      PutKeeps(s, at, b.(token := b.burst), Idle, s');
    case _ =>
      OthersOk(s, at, s'.pc);
      PcKeeps(s, s', at);
  }

  lemma InitKeeps(s: State, cps: nat, burst: nat, s': State)
    requires Inv(s) && s.pc == Idle && s' == Next(s, Init(cps, burst, true))
    ensures Inv(s')
  {
    forall pos: nat | Live(s'.job, pos) ensures SlotOk(s', pos) {
      if Live(s.job, pos) { assert SlotOk(s, pos); }
    }
  }

  lemma DestroyKeeps(s: State, at: nat, s': State)
    requires Inv(s) && s.pc == Idle && s' == Next(s, Destroy(at))
    ensures Inv(s')
  {
    forall pos: nat | Live(s'.job, pos) ensures SlotOk(s', pos) {
      assert Live(s.job, pos) && SlotOk(s, pos);
    }
  }

  lemma CallKeeps(s: State, at: nat, pc: Pc, s': State)
    requires Inv(s) && s.pc == Idle && Live(s.job, at) && s' == s.(pc := pc)
    requires (pc.FetchWait? || pc.ReturnLoad?) && pc.pos == at && pc.size > 0
    ensures Inv(s')
  {
    assert SlotOk(s, at);
    OthersOk(s, at, pc);
    PcKeeps(s, s', at);
  }

  /** Every event keeps the invariant, whenever it comes. */
  lemma NextKeeps(s: State, e: Event, s': State)
    requires Inv(s) && s' == Next(s, e)
    ensures Inv(s')
  {
    if s' != s {
      match e
      case Tick => TickKeeps(s, s');
      case Advance => StepKeeps(s, s');
      case Init(cps, burst, _) => InitKeeps(s, cps, burst, s');
      case Fetch(at, size) => CallKeeps(s, at, FetchWait(at, size), s');
      case Return(at, size) => CallKeeps(s, at, ReturnLoad(at, size), s');
      case Destroy(at) => DestroyKeeps(s, at, s');
    }
  }

  lemma {:induction false} RunKeeps(events: seq<Event>)
    ensures Inv(Run(events))
  {
    if events != [] {
      var n := |events| - 1;
      RunKeeps(events[..n]);
      NextKeeps(Run(events[..n]), events[n], Run(events));
    }
  }

  /** Over a whole run, wherever the signals fall: tokens never go negative, and what was
      handed out is covered by what the ticks brought and what was given back. */
  lemma RateBound(events: seq<Event>, pos: nat)
    requires Live(Run(events).job, pos)
    ensures var b := Run(events).job[pos].value;
            0 <= b.token && b.granted + b.token <= b.cps * b.ticks + b.returned
  {
    RunKeeps(events);
    assert SlotOk(Run(events), pos);
  }

  // ----- Any window of a run -----

  /** What is handed out and at hand beyond the ticks and the tokens given back. */
  function Excess(b: Bucket, pos: nat, pc: Pc): int {
    b.granted + Working(b, pos, pc) - b.cps * b.ticks - b.returned
  }

  /** The bucket in the slot is the same one, with no more excess. */
  ghost predicate NoGain(s: State, s': State, pos: nat)
    requires Live(s.job, pos) && Live(s'.job, pos)
  {
    var b, b' := s.job[pos].value, s'.job[pos].value;
    && b'.cps == b.cps && b'.burst == b.burst && b'.serial == b.serial
    && Excess(b', pos, s'.pc) <= Excess(b, pos, s.pc)
  }

  lemma TickNoGain(b: Bucket, pos: nat, pc: Pc)
    ensures Excess(TickBucket(b), pos, pc) <= Excess(b, pos, pc)
  {
    assert b.cps * (b.ticks + 1) == b.cps * b.ticks + b.cps;
  }

  /** A step leaves a bucket without gain, or it is a new one. */
  lemma StepNoGain(s: State, e: Event, s': State, pos: nat)
    requires Inv(s) && s' == Next(s, e) && Live(s'.job, pos)
    ensures s.created <= s'.created
    ensures s'.job[pos].value.serial < s.created ==> Live(s.job, pos) && NoGain(s, s', pos)
  {
    if Live(s.job, pos) {
      assert SlotOk(s, pos);
      if e == Tick { TickNoGain(s.job[pos].value, pos, s.pc); }
    }
  }

  lemma {:induction false} CreatedGrows(events: seq<Event>, n: nat)
    requires n <= |events|
    ensures Run(events[..n]).created <= Run(events).created
  {
    if n == |events| {
      assert events[..n] == events;
    } else {
      var prev := events[..|events| - 1];
      assert prev[..n] == events[..n];
      CreatedGrows(prev, n);
    }
  }

  /** While a bucket lives, its excess only falls. */
  lemma {:induction false} ExcessFalls(events: seq<Event>, n: nat, pos: nat, s: State, s': State)
    requires n <= |events| && s == Run(events[..n]) && s' == Run(events) && Live(s'.job, pos)
    requires s'.job[pos].value.serial < s.created
    ensures Live(s.job, pos) && NoGain(s, s', pos)
  {
    if n == |events| {
      assert events[..n] == events;
    } else {
      var prev, last := events[..|events| - 1], events[|events| - 1];
      assert prev[..n] == events[..n];
      RunKeeps(prev);
      CreatedGrows(prev, n);
      StepNoGain(Run(prev), last, s', pos);
      ExcessFalls(prev, n, pos, s, Run(prev));
    }
  }

  /** Over any part of a run between two calls, a bucket hands out at most its limit, what
      the ticks in between bring, and what is given back in between. */
  lemma WindowBound(events: seq<Event>, n: nat, pos: nat, s: State, s': State)
    requires n <= |events| && s == Run(events[..n]) && s' == Run(events) && s.pc == Idle && s'.pc == Idle
    requires Live(s.job, pos) && Live(s'.job, pos) && s.job[pos].value.serial == s'.job[pos].value.serial
    ensures var b, b' := s.job[pos].value, s'.job[pos].value;
            b'.granted - b.granted <= b.burst + b.cps * (b'.ticks - b.ticks) + (b'.returned - b.returned)
  {
    WindowExcess(events, n, pos, s, s');
    ExcessBounds(s.job[pos].value, s'.job[pos].value, pos);
  }

  lemma WindowExcess(events: seq<Event>, n: nat, pos: nat, s: State, s': State)
    requires n <= |events| && s == Run(events[..n]) && s' == Run(events) && s.pc == Idle && s'.pc == Idle
    requires Live(s.job, pos) && Live(s'.job, pos) && s.job[pos].value.serial == s'.job[pos].value.serial
    ensures var b, b' := s.job[pos].value, s'.job[pos].value;
            b.token <= b.burst && 0 <= b'.token && b'.cps == b.cps && Excess(b', pos, Idle) <= Excess(b, pos, Idle)
  {
    RunKeeps(events[..n]);
    RunKeeps(events);
    IdleSlot(s, pos);
    IdleSlot(s', pos);
    ExcessFalls(events, n, pos, s, s');
  }

  lemma IdleSlot(s: State, pos: nat)
    requires Inv(s) && s.pc == Idle && Live(s.job, pos)
    ensures 0 <= s.job[pos].value.token <= s.job[pos].value.burst && s.job[pos].value.serial < s.created
  {
    assert SlotOk(s, pos);
  }

  lemma ExcessBounds(b: Bucket, b': Bucket, pos: nat)
    requires b.token <= b.burst && 0 <= b'.token && b'.cps == b.cps && Excess(b', pos, Idle) <= Excess(b, pos, Idle)
    ensures b'.granted - b.granted <= b.burst + b.cps * (b'.ticks - b.ticks) + (b'.returned - b.returned)
  {
    assert b.cps * (b'.ticks - b.ticks) == b.cps * b'.ticks - b.cps * b.ticks;
  }

  // ----- Calls that no signal interrupts, and ticks that get lost -----

  /** The call in progress, n steps on. */
  function Steps(s: State, n: nat): State {
    if n == 0 then s else StepCall(Steps(s, n - 1))
  }

  /** Uninterrupted, a fetch takes as many tokens as there are, up to the number wanted. */
  lemma QuietFetch(s: State, pos: nat, size: int, b: Bucket, n: int)
    requires s.pc == Idle && Live(s.job, pos) && b == s.job[pos].value && 0 < size && 0 < b.token
    requires n == if b.token < size then b.token else size
    ensures Steps(Next(s, Fetch(pos, size)), 4) ==
            s.(job := Put(s.job, pos, b.(token := b.token - n, granted := b.granted + n)))
  {
    var s1 := Next(s, Fetch(pos, size));
    assert Steps(s1, 0) == s1;
    assert Steps(s1, 1) == s.(pc := FetchRead(pos, size));
    assert Steps(s1, 2) == s.(pc := FetchLoad(pos, n));
    assert Steps(s1, 3) == s.(pc := FetchStore(pos, n, b.token));
  }

  /** Uninterrupted, a return adds its tokens up to the limit. */
  lemma QuietReturn(s: State, pos: nat, size: int, b: Bucket)
    requires s.pc == Idle && Live(s.job, pos) && b == s.job[pos].value && 0 < size
    ensures Steps(Next(s, Return(pos, size)), 4) ==
            s.(job := Put(s.job, pos, b.(token := if b.token + size > b.burst then b.burst else b.token + size,
                                         returned := b.returned + size)))
  {
    var s1 := Next(s, Return(pos, size));
    var b1 := b.(token := b.token + size, returned := b.returned + size);
    assert Steps(s1, 0) == s1;
    assert Steps(s1, 1) == s.(pc := ReturnStore(pos, size, b.token));
    assert Steps(s1, 2) == s.(job := Put(s.job, pos, b1), pc := ReturnTest(pos));
    var full := b1.token > b1.burst;
    assert Steps(s1, 3) == s.(job := Put(s.job, pos, b1), pc := if full then ReturnCap(pos) else Idle);
    if full { assert Put(Put(s.job, pos, b1), pos, b1.(token := b1.burst)) == Put(s.job, pos, b1.(token := b1.burst)); }
  }

  /** A tick between the load and the store of an update is lost: the bound on what is
      handed out cannot be an equation. */
  lemma LostTick(s: State, pos: nat)
    requires (s.pc.FetchStore? || s.pc.ReturnStore?) && s.pc.pos == pos && Live(s.job, pos)
    ensures var late, quiet := StepCall(Next(s, Tick)), StepCall(s);
            && Live(late.job, pos) && Live(quiet.job, pos)
            && late.job[pos].value == quiet.job[pos].value.(ticks := quiet.job[pos].value.ticks + 1)
  {
  }

  // ----- What ticks bring -----

  /** k signals in a row. */
  function Ticked(s: State, k: nat): State {
    if k == 0 then s else Next(Ticked(s, k - 1), Tick)
  }

  /** k ticks bring k times the rate, up to the limit, and change nothing else; a free slot
      stays free. */
  lemma {:induction false} TicksFill(s: State, k: nat, pos: nat, b: Bucket, token: int)
    requires Live(s.job, pos) && b == s.job[pos].value && b.token <= b.burst
    requires token == if b.token + k * b.cps < b.burst then b.token + k * b.cps else b.burst
    ensures var s' := Ticked(s, k); Live(s'.job, pos) && s'.pc == s.pc && s'.created == s.created
    ensures Ticked(s, k).job[pos].value ==
            Bucket(b.cps, b.burst, token, b.serial, b.granted, b.returned, b.ticks + k)
  {
    if k > 0 {
      assert k * b.cps == (k - 1) * b.cps + b.cps;
      var before := if b.token + (k - 1) * b.cps < b.burst then b.token + (k - 1) * b.cps else b.burst;
      TicksFill(s, k - 1, pos, b, before);
    }
  }

  lemma {:induction false} TicksSkipFree(s: State, k: nat, pos: nat)
    requires !Live(s.job, pos)
    ensures !Live(Ticked(s, k).job, pos) && |Ticked(s, k).job| == |s.job|
  {
    if k > 0 { TicksSkipFree(s, k - 1, pos); }
  }

  /** With a positive rate and limit, one tick ends any wait for tokens. */
  lemma TickWakes(s: State, pos: nat, size: int)
    requires Inv(s) && s.pc == FetchWait(pos, size) && Live(s.job, pos)
    requires s.job[pos].value.cps > 0 && s.job[pos].value.burst > 0
    ensures StepCall(Next(s, Tick)).pc == FetchRead(pos, size)
  {
    assert SlotOk(s, pos);
  }

  // ----- Buckets come and go -----

  /** A new bucket has the rate and the limit asked for and no tokens, and takes the first
      free slot; the other slots stay. */
  lemma InitTakesFirst(s: State, cps: nat, burst: nat, pos: nat)
    requires s.pc == Idle && pos < |s.job| && s.job[pos].None? && forall j :: 0 <= j < pos ==> s.job[j].Some?
    ensures Next(s, Init(cps, burst, true)).job == s.job[pos := Some(Bucket(cps, burst, 0, s.created, 0, 0, 0))]
    ensures Next(s, Init(cps, burst, true)).pc == Idle
  {
  }

  /** Without a free slot or memory nothing changes. */
  lemma InitRefused(s: State, cps: nat, burst: nat, memory: bool)
    requires s.pc == Idle && (!memory || forall j :: 0 <= j < |s.job| ==> s.job[j].Some?)
    ensures Next(s, Init(cps, burst, memory)) == s
  {
  }

  /** Giving up a bucket frees its slot and no other. */
  lemma DestroyFrees(s: State, pos: nat)
    requires s.pc == Idle && Live(s.job, pos)
    ensures var job := Next(s, Destroy(pos)).job;
            |job| == |s.job| && forall j :: 0 <= j < |job| ==> job[j] == if j == pos then None else s.job[j]
  {
  }

  // ----- The table in place -----

  class JobTable {
    var job: array<Option<Bucket>>

    constructor ()
      ensures fresh(job) && job[..] == Start().job
    {
      job := new Option<Bucket>[MYTBF_MAX](_ => None);
      new;
      assert job[..] == Start().job;
    }

    /** The signal handler: one pass over the slots brings every bucket its rate, up to the
        limit. */
    method Handler()
      modifies job
      ensures job[..] == TickAll(old(job[..]))
      ensures forall k :: 0 <= k < job.Length ==> (job[k].Some? <==> old(job[k]).Some?)
      ensures forall k :: 0 <= k < job.Length && job[k].Some? ==>
                var b, b0 := job[k].value, old(job[k]).value;
                && b.token == (if b0.token + b0.cps > b0.burst then b0.burst else b0.token + b0.cps)
                && b == b0.(token := b.token, ticks := b0.ticks + 1)
    {
      var i := 0;
      while i < job.Length
        invariant 0 <= i <= job.Length
        invariant forall k :: 0 <= k < i ==> job[k] == TickSlot(old(job[k]))
        invariant forall k :: i <= k < job.Length ==> job[k] == old(job[k])
      {
        if job[i].Some? {
          var b := job[i].value;
          b := b.(token := b.token + b.cps, ticks := b.ticks + 1);
          if b.token > b.burst {
            b := b.(token := b.burst);
          }
          job[i] := Some(b);
        }
        i := i + 1;
      }
    }

    method GetFreePos() returns (pos: int)
      ensures pos == match FreePos(job[..], 0) case None => -1 case Some(p) => p
    {
      var i := 0;
      while i < job.Length
        invariant 0 <= i <= job.Length
        invariant FreePos(job[..], 0) == FreePos(job[..], i)
      {
        if job[i].None? {
          return i;
        }
        i := i + 1;
      }
      return -1;
    }
  }
}
