/** Sequences of calls on one factory instance: the caller's `open`, `exit`
    and `destroy`, interleaved with exit events the SDK fires whenever it
    likes (any number of times). An exit event is either one step, or its
    two halves with the calls the configured handler makes placed between
    them. */
module Lifecycle {
  import opened Wrappers
  import opened Factory

  datatype Op =
    | OpOpen(args: seq<Value>)
    | OpExit(options: Option<ExitOptions>, callback: Option<CbId>)
    | OpDestroy
    | OpExitEvent(params: seq<Value>)
      // the exit event up to and including the configured handler
    | OpExitEventStart(params: seq<Value>)
      // the rest of the exit event: the pending callback
    | OpExitEventFinish

  /** One call. */
  function Apply(p: Instance, op: Op): (r: Step)
    ensures r.next.config == p.config
  {
    match op
    case OpOpen(args) => Open(p, args)
    case OpExit(options, callback) => Exit(p, options, callback)
    case OpDestroy => Destroy(p)
    case OpExitEvent(params) => ExitEvent(p, params)
    case OpExitEventStart(params) => ExitEventStart(p, params)
    case OpExitEventFinish => ExitEventFinish(p)
  }

  /** A sequence of calls, effects concatenated in order. The configuration
      the exit handler closes over never changes. */
  function Run(p: Instance, ops: seq<Op>): (r: Step)
    ensures r.next.config == p.config
    ensures |ops| == 0 ==> r.effects == []
    decreases |ops|
  {
    if |ops| == 0 then
      Step(p, [])
    else
      var first := Apply(p, ops[0]);
      var rest := Run(first.next, ops[1..]);
      Step(rest.next, first.effects + rest.effects)
  }

  /** A single call runs as itself. */
  lemma RunOne(p: Instance, op: Op)
    ensures Run(p, [op]) == Apply(p, op)
  {
  }

  /** A non-empty trace runs its first call, then the rest from there. */
  lemma RunCons(p: Instance, ops: seq<Op>)
    requires |ops| > 0
    ensures Run(p, ops).next == Run(Apply(p, ops[0]).next, ops[1..]).next
    ensures Run(p, ops).effects == Apply(p, ops[0]).effects + Run(Apply(p, ops[0]).next, ops[1..]).effects
  {
  }

  /** Running two traces one after the other is running their concatenation. */
  lemma {:induction false} RunAppend(p: Instance, a: seq<Op>, b: seq<Op>)
    ensures Run(p, a + b).next == Run(Run(p, a).next, b).next
    ensures Run(p, a + b).effects == Run(p, a).effects + Run(Run(p, a).next, b).effects
    decreases |a|
  {
    if |a| == 0 {
      assert a + b == b;
    } else {
      var ab := a + b;
      assert ab[0] == a[0] && ab[1..] == a[1..] + b;
      var first := Apply(p, a[0]);
      var tail := Run(first.next, a[1..]);
      RunCons(p, a);
      RunCons(p, ab);
      RunAppend(first.next, a[1..], b);
      SeqAssoc(first.effects, tail.effects, Run(tail.next, b).effects);
    }
  }

  /** Concatenation regroups. */
  lemma SeqAssoc<T>(x: seq<T>, y: seq<T>, z: seq<T>)
    ensures x + (y + z) == (x + y) + z
  {
  }

  /** The lifecycle phases: a held handle is open or closed;
      without one the instance is destroyed. */
  datatype Phase = Closed | Opened | Destroyed

  function PhaseOf(p: Instance): Phase
  {
    if !p.state.hasHandle then Destroyed
    else if p.state.isOpen then Opened
    else Closed
  }

  /** How each call moves between phases. `open` is accepted while already
      open; a non-forced `exit` leaves the phase to the exit event; the
      second half of the event changes nothing. */
  lemma PhaseTransitions(p: Instance, args: seq<Value>, options: Option<ExitOptions>, callback: Option<CbId>, params: seq<Value>)
    ensures PhaseOf(Open(p, args).next) == if PhaseOf(p) == Destroyed then Destroyed else Opened
    ensures PhaseOf(Exit(p, options, callback).next) == if PhaseOf(p) == Opened && Forced(options) then Closed else PhaseOf(p)
    ensures PhaseOf(ExitEvent(p, params).next) == if PhaseOf(p) == Destroyed then Destroyed else Closed
    ensures PhaseOf(ExitEventStart(p, params).next) == if PhaseOf(p) == Destroyed then Destroyed else Closed
    ensures ExitEventFinish(p).next == p
    ensures PhaseOf(Destroy(p).next) == Destroyed
  {
  }

  /** A successful construction starts in the closed phase. */
  lemma CreateStartsClosed(options: Config)
    ensures Create(true, options).Success?
    ensures PhaseOf(Create(true, options).value.next) == Closed
  {
  }

  /** Construction with `{publicKey: "pk_1", onExit: f}` hands the SDK
      `{key: "pk_1", onExit: <wrapper>}` and keeps `f` as the user handler. */
  lemma CreateRenamesPublicKey(f: CbId)
    ensures var options := map[LegacyKey := Some(Data("pk_1")), OnExitKey := Some(Fn(f))];
      && Create(true, options).Success?
      && Create(true, options).value.effects
         == [SdkCreate(map[SdkKey := Some(Data("pk_1")), OnExitKey := Some(ExitWrapper)])]
      && UserExitHandler(Create(true, options).value.next.config) == Some(f)
  {
    assert LegacyKey != SdkKey && LegacyKey != OnExitKey && SdkKey != OnExitKey;
    var options := map[LegacyKey := Some(Data("pk_1")), OnExitKey := Some(Fn(f))];
    var config := Create(true, options).value.next.config;
    assert config == map[SdkKey := Some(Data("pk_1")), OnExitKey := Some(Fn(f))];
    assert config[OnExitKey := Some(ExitWrapper)] == map[SdkKey := Some(Data("pk_1")), OnExitKey := Some(ExitWrapper)];
  }

  /** `destroy` is idempotent: a second call changes nothing and emits nothing. */
  lemma DestroyIdempotent(p: Instance)
    ensures Destroy(Destroy(p).next) == Step(Destroy(p).next, [])
    ensures Run(p, [OpDestroy, OpDestroy]) == Destroy(p)
  {
  }

  /** Once the handle is gone it never comes back, and no call, in any order,
      reaches the SDK again. */
  lemma {:induction false} DestroyedIsInert(p: Instance, ops: seq<Op>)
    requires !p.state.hasHandle
    ensures !Run(p, ops).next.state.hasHandle
    ensures forall e :: e in Run(p, ops).effects ==> !e.IsSdkCall()
    decreases |ops|
  {
    if |ops| > 0 {
      var first := Apply(p, ops[0]);
      assert !first.next.state.hasHandle;
      assert forall e :: e in first.effects ==> !e.IsSdkCall();
      DestroyedIsInert(first.next, ops[1..]);
    }
  }

  /** After `destroy`, whatever was open, every later call stays away from
      the SDK; an `exit` just calls its callback. */
  lemma AfterDestroy(p: Instance, ops: seq<Op>, options: Option<ExitOptions>, c: CbId)
    ensures var r := Run(p, [OpDestroy] + ops).effects;
      && (p.state.hasHandle <==> |r| > 0 && r[0] == SdkDestroy)
      && forall i :: 0 < i < |r| ==> !r[i].IsSdkCall()
    ensures Exit(Destroy(p).next, options, Some(c)).effects == [Invoke(c)]
  {
    var d := Destroy(p);
    DestroyedIsInert(d.next, ops);
    RunCons(p, [OpDestroy] + ops);
    assert ([OpDestroy] + ops)[1..] == ops;
    var rest := Run(d.next, ops).effects;
    var r := Run(p, [OpDestroy] + ops).effects;
    assert r == d.effects + rest;
    if p.state.hasHandle {
      assert forall i :: 0 < i < |r| ==> r[i] == rest[i - 1];
    } else {
      assert r == rest;
      assert |r| > 0 ==> r[0] in rest;
    }
  }

  /** Whether a call hands over the callback `c`. */
  predicate Passes(op: Op, c: CbId)
  {
    op.OpExit? && op.callback == Some(c)
  }

  /** One call that does not hand over `c` neither invokes it nor makes it
      pending. */
  lemma StepWithoutCallback(p: Instance, op: Op, c: CbId)
    requires p.state.pending != Some(c) && !Passes(op, c)
    ensures Invoke(c) !in Apply(p, op).effects
    ensures Apply(p, op).next.state.pending != Some(c)
    ensures UserExitHandler(p.config) != Some(c) ==> forall q :: UserOnExit(c, q) !in Apply(p, op).effects
  {
  }

  /** A function is only ever called as an exit callback after it was
      handed to `exit`: if it is not pending and no call passes it, it is
      never invoked as one. Unless it is also the configured exit handler,
      it is not called at all. */
  lemma {:induction false} CallbackOnlyFiresIfGiven(p: Instance, ops: seq<Op>, c: CbId)
    requires p.state.pending != Some(c)
    requires forall i :: 0 <= i < |ops| ==> !Passes(ops[i], c)
    ensures Invoke(c) !in Run(p, ops).effects
    ensures UserExitHandler(p.config) != Some(c) ==> forall q :: UserOnExit(c, q) !in Run(p, ops).effects
    decreases |ops|
  {
    if |ops| > 0 {
      var first := Apply(p, ops[0]);
      StepWithoutCallback(p, ops[0], c);
      CallbackOnlyFiresIfGiven(first.next, ops[1..], c);
      RunCons(p, ops);
    }
  }

  /** A fresh `open` discards a stale pending callback: unless it is handed
      over again, it never fires. */
  lemma StaleCallbackDiscarded(p: Instance, args: seq<Value>, ops: seq<Op>, c: CbId)
    requires p.state.hasHandle && p.state.pending == Some(c)
    requires forall i :: 0 <= i < |ops| ==> !Passes(ops[i], c)
    ensures Invoke(c) !in Run(p, [OpOpen(args)] + ops).effects
  {
    var all := [OpOpen(args)] + ops;
    assert all[1..] == ops;
    CallbackOnlyFiresIfGiven(Open(p, args).next, ops, c);
  }

  /** Open, exit, exit event: closed afterwards, the SDK saw the open and the
      exit in that order, and the exit callback fired exactly once. */
  lemma OpenExitCycle(p: Instance, args: seq<Value>, options: Option<ExitOptions>, c: CbId, params: seq<Value>)
    requires p.state.hasHandle
    ensures var r := Run(p, [OpOpen(args), OpExit(options, Some(c)), OpExitEvent(params)]);
      && !r.next.state.isOpen
      && r.next.state.hasHandle
      && |r.effects| >= 3
      && r.effects[0] == SdkOpen(args)
      && r.effects[1] == SdkExit(options)
      && multiset(r.effects)[Invoke(c)] == 1
  {
    var s1 := Open(p, args);
    var s2 := Exit(s1.next, options, Some(c));
    var s3 := ExitEvent(s2.next, params);
    assert s1.effects == [SdkOpen(args)];
    assert s2.effects == [SdkExit(options)];
    assert s2.next.state.pending == Some(c) && s2.next.state.hasHandle;
    var firstTwo := [OpOpen(args), OpExit(options, Some(c))];
    var all := firstTwo + [OpExitEvent(params)];
    assert all == [OpOpen(args), OpExit(options, Some(c)), OpExitEvent(params)];
    RunOne(p, OpOpen(args));
    RunOne(s1.next, OpExit(options, Some(c)));
    RunAppend(p, [OpOpen(args)], [OpExit(options, Some(c))]);
    assert [OpOpen(args)] + [OpExit(options, Some(c))] == firstTwo;
    assert Run(p, firstTwo) == Step(s2.next, [SdkOpen(args), SdkExit(options)]);
    RunOne(s2.next, OpExitEvent(params));
    RunAppend(p, firstTwo, [OpExitEvent(params)]);
    assert Run(p, all).next == s3.next;
    assert Run(p, all).effects == [SdkOpen(args), SdkExit(options)] + s3.effects;
    OneInvokePerEvent(s2.next, params, c);
  }

  /** The exit event keeps the pending callback, so an SDK that fires the
      event twice makes the callback run twice. */
  lemma CallbackCanFireTwice(p: Instance, c: CbId, params1: seq<Value>, params2: seq<Value>)
    requires p.state.pending == Some(c)
    ensures var r := Run(p, [OpExitEvent(params1), OpExitEvent(params2)]);
      multiset(r.effects)[Invoke(c)] == 2 && r.next.state.pending == Some(c)
  {
    var s1 := ExitEvent(p, params1);
    var s2 := ExitEvent(s1.next, params2);
    var ops := [OpExitEvent(params1), OpExitEvent(params2)];
    RunOne(p, OpExitEvent(params1));
    RunOne(s1.next, OpExitEvent(params2));
    assert [OpExitEvent(params1)] + [OpExitEvent(params2)] == ops;
    RunAppend(p, [OpExitEvent(params1)], [OpExitEvent(params2)]);
    var r := Run(p, ops);
    assert r.next == s2.next;
    assert r.effects == s1.effects + s2.effects;
    OneInvokePerEvent(p, params1, c);
    OneInvokePerEvent(s1.next, params2, c);
    assert multiset(r.effects) == multiset(s1.effects) + multiset(s2.effects);
  }

  /** Each exit event calls the pending callback exactly once. */
  lemma OneInvokePerEvent(p: Instance, params: seq<Value>, c: CbId)
    requires p.state.pending == Some(c)
    ensures multiset(ExitEvent(p, params).effects)[Invoke(c)] == 1
  {
  }

  /** `destroy` while open leaves the open flag set, so a destroyed instance
      can still read as open; only an exit event clears it. */
  lemma DestroyWhileOpenStaysOpen(p: Instance, args: seq<Value>)
    requires p.state.hasHandle
    ensures var r := Run(p, [OpOpen(args), OpDestroy]);
      !r.next.state.hasHandle && r.next.state.isOpen && r.effects == [SdkOpen(args), SdkDestroy]
  {
    var s1 := Open(p, args);
    RunOne(p, OpOpen(args));
    RunOne(s1.next, OpDestroy);
    RunAppend(p, [OpOpen(args)], [OpDestroy]);
    assert [OpOpen(args)] + [OpDestroy] == [OpOpen(args), OpDestroy];
  }

  /** The two halves of the exit event, run back to back, are the whole
      event. */
  lemma ExitEventHalves(p: Instance, params: seq<Value>)
    ensures Run(p, [OpExitEventStart(params), OpExitEventFinish]) == ExitEvent(p, params)
  {
    var start := ExitEventStart(p, params);
    RunOne(p, OpExitEventStart(params));
    RunOne(start.next, OpExitEventFinish);
    RunAppend(p, [OpExitEventStart(params)], [OpExitEventFinish]);
    assert [OpExitEventStart(params)] + [OpExitEventFinish] == [OpExitEventStart(params), OpExitEventFinish];
  }

  /** A configured handler that calls `open` during the exit event empties
      the slot before the wrapper reads it: the pending callback does not
      run, and the overlay ends up open. */
  lemma ReentrantOpenSuppressesCallback(p: Instance, params: seq<Value>, args: seq<Value>, c: CbId)
    requires p.state.hasHandle && p.state.pending == Some(c)
    ensures var r := Run(p, [OpExitEventStart(params), OpOpen(args), OpExitEventFinish]);
      && Invoke(c) !in r.effects
      && r.next.state.isOpen
      && r.next.state.pending == None
  {
    var ops := [OpExitEventStart(params), OpOpen(args), OpExitEventFinish];
    var s1 := ExitEventStart(p, params);
    var s2 := Open(s1.next, args);
    assert s2.next.state.pending == None;
    CallbackOnlyFiresIfGiven(s2.next, [OpExitEventFinish], c);
    RunOne(s2.next, OpExitEventFinish);
    RunCons(p, ops);
    assert ops[1..] == [OpOpen(args), OpExitEventFinish];
    RunCons(s1.next, ops[1..]);
    assert ops[1..][1..] == [OpExitEventFinish];
    assert Invoke(c) !in s1.effects;
    assert Invoke(c) !in s2.effects;
  }

  /** The handler's `open` then `exit` leave the new callback pending. */
  lemma ReentrantExitPrefix(p: Instance, params: seq<Value>, args: seq<Value>, options: Option<ExitOptions>, c: CbId)
    requires p.state.hasHandle
    ensures Run(p, [OpExitEventStart(params), OpOpen(args), OpExit(options, Some(c))]).next.state.pending == Some(c)
  {
    var pre := [OpExitEventStart(params), OpOpen(args), OpExit(options, Some(c))];
    var s1 := ExitEventStart(p, params);
    var s2 := Open(s1.next, args);
    var s3 := Exit(s2.next, options, Some(c));
    assert s3.next.state.pending == Some(c);
    RunCons(p, pre);
    assert pre[1..] == [OpOpen(args), OpExit(options, Some(c))];
    RunCons(s1.next, pre[1..]);
    assert pre[1..][1..] == [OpExit(options, Some(c))];
    RunOne(s2.next, OpExit(options, Some(c)));
  }

  /** A configured handler that calls `open` and then `exit` with a new
      callback gets that callback run by the same exit event, at once,
      before the SDK has reported the new exit. */
  lemma ReentrantExitRunsNewCallback(p: Instance, params: seq<Value>, args: seq<Value>, options: Option<ExitOptions>, c: CbId)
    requires p.state.hasHandle
    ensures var r := Run(p, [OpExitEventStart(params), OpOpen(args), OpExit(options, Some(c)), OpExitEventFinish]);
      && |r.effects| > 0
      && r.effects[|r.effects| - 1] == Invoke(c)
      && r.next.state.pending == Some(c)
  {
    var pre := [OpExitEventStart(params), OpOpen(args), OpExit(options, Some(c))];
    ReentrantExitPrefix(p, params, args, options, c);
    var mid := Run(p, pre).next;
    RunOne(mid, OpExitEventFinish);
    RunAppend(p, pre, [OpExitEventFinish]);
    assert pre + [OpExitEventFinish] == [OpExitEventStart(params), OpOpen(args), OpExit(options, Some(c)), OpExitEventFinish];
    assert ExitEventFinish(mid).effects == [Invoke(c)];
  }
}
