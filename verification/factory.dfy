/** The link-handler factory: one handle created by the third-party SDK plus
    three fields of bookkeeping (is a handle held, is the overlay open, which
    exit callback is pending). The SDK is an abstract sink: every call the
    factory makes into it, and every callback it invokes, is an `Effect` in
    the order it happens. Each operation is a pure transition returning the
    next instance and the effects it emitted. */
module Factory {
  import opened Wrappers
  import opened Rename

  /** Identity of a caller-supplied function. */
  type CbId = nat

  /** The values the factory passes around without looking inside, except
      functions, which it may call. `ExitWrapper` is the factory's own exit
      handler that it hands to the SDK. */
  datatype Value = Data(text: string) | Fn(id: CbId) | ExitWrapper

  /** A configuration object; `None` is an `undefined` property. */
  type Config = map<string, Option<Value>>

  /** The options of an exit request; only `force` is looked at. */
  datatype ExitOptions = ExitOptions(force: bool, rest: Config)

  /** The bookkeeping of the factory. */
  datatype State = State(hasHandle: bool, isOpen: bool, pending: Option<CbId>)

  /** A created factory: the renamed configuration its exit handler closes
      over, and its state. */
  datatype Instance = Instance(config: Config, state: State)

  datatype Effect =
    | SdkCreate(sdkConfig: Config)
    | SdkOpen(args: seq<Value>)
    | SdkExit(options: Option<ExitOptions>)
    | SdkDestroy
    | UserOnExit(cb: CbId, params: seq<Value>)
    | Invoke(cb: CbId)
  {
    /** True for the effects that reach the SDK. */
    predicate IsSdkCall()
    {
      SdkCreate? || SdkOpen? || SdkExit? || SdkDestroy?
    }
  }

  datatype Step = Step(next: Instance, effects: seq<Effect>)

  /** The one error: the SDK global is not loaded. */
  datatype Error = PlaidNotLoaded

  const LegacyKey: string := "publicKey"
  const SdkKey: string := "key"
  const OnExitKey: string := "onExit"

  /** The caller's own exit handler in a configuration, if it is a function. */
  function UserExitHandler(config: Config): Option<CbId>
  {
    var v := Get(config, OnExitKey);
    if v.Some? && v.value.Fn? then Some(v.value.id) else None
  }

  /** Whether exit options ask for a forced exit. */
  predicate Forced(options: Option<ExitOptions>)
  {
    options.Some? && options.value.force
  }

  /** `cb && cb()`: the call, if there is a callback. */
  function InvokeIfSet(cb: Option<CbId>): seq<Effect>
  {
    if cb.Some? then [Invoke(cb.value)] else []
  }

  /** Construction. Without the SDK it fails and touches nothing; otherwise
      it renames the legacy key, asks the SDK once for a handle, passing the
      renamed configuration with its exit handler overridden by the
      factory's wrapper, and starts closed with no pending callback. */
  function Create(sdkLoaded: bool, options: Config): (r: Result<Step, Error>)
    ensures r.Failure? <==> !sdkLoaded
    ensures r.Failure? ==> r.error == PlaidNotLoaded
    ensures r.Success? ==> r.value.next.state == State(true, false, None)
    ensures r.Success? ==> IsRenamed(options, LegacyKey, SdkKey, r.value.next.config)
    ensures r.Success? ==> r.value.effects == [SdkCreate(r.value.next.config[OnExitKey := Some(ExitWrapper)])]
  {
    if !sdkLoaded then
      Failure(PlaidNotLoaded)
    else
      var config := RenameKey(options, LegacyKey, SdkKey);
      var sdkConfig := config[OnExitKey := Some(ExitWrapper)];
      Success(Step(Instance(config, State(true, false, None)), [SdkCreate(sdkConfig)]))
  }

  /** Open the overlay, forwarding the arguments; a fresh open drops any
      pending exit callback. Without a handle nothing happens. */
  function Open(p: Instance, args: seq<Value>): (r: Step)
    ensures r.next.config == p.config
    ensures !p.state.hasHandle ==> r == Step(p, [])
    ensures p.state.hasHandle ==> r.next.state == State(true, true, None)
    ensures p.state.hasHandle ==> r.effects == [SdkOpen(args)]
  {
    if !p.state.hasHandle then
      Step(p, [])
    else
      var s := p.state.(isOpen := true, pending := None);
      Step(p.(state := s), [SdkOpen(args)])
  }

  /** Ask the SDK to exit. When closed or without a handle, the callback is
      called at once. Otherwise it waits for the exit event, and a forced
      exit marks the overlay closed straight away. */
  function Exit(p: Instance, options: Option<ExitOptions>, callback: Option<CbId>): (r: Step)
    ensures r.next.config == p.config
    ensures !(p.state.isOpen && p.state.hasHandle) ==> r.next == p
    ensures !(p.state.isOpen && p.state.hasHandle) ==> r.effects == InvokeIfSet(callback)
    ensures p.state.isOpen && p.state.hasHandle ==> r.next.state.hasHandle && r.next.state.pending == callback
    ensures p.state.isOpen && p.state.hasHandle ==> r.effects == [SdkExit(options)]
    ensures p.state.isOpen && p.state.hasHandle ==> (r.next.state.isOpen <==> !Forced(options))
  {
    if !p.state.isOpen || !p.state.hasHandle then
      Step(p, InvokeIfSet(callback))
    else
      var s := p.state.(pending := callback);
      var s' := if Forced(options) then s.(isOpen := false) else s;
      Step(p.(state := s'), [SdkExit(options)])
  }

  /** Tear the handle down once. The open flag and the pending callback are
      left as they are. */
  function Destroy(p: Instance): (r: Step)
    ensures r.next.config == p.config
    ensures !r.next.state.hasHandle
    ensures r.next.state.isOpen == p.state.isOpen
    ensures r.next.state.pending == p.state.pending
    ensures p.state.hasHandle ==> r.effects == [SdkDestroy]
    ensures !p.state.hasHandle ==> r == Step(p, [])
  {
    if !p.state.hasHandle then
      Step(p, [])
    else
      Step(p.(state := p.state.(hasHandle := false)), [SdkDestroy])
  }

  /** First half of the SDK's exit event, through the factory's wrapper:
      mark closed, then call the caller's configured handler with the
      event's arguments. That handler is outside code and may call back
      into the factory before the second half runs. */
  function ExitEventStart(p: Instance, params: seq<Value>): (r: Step)
    ensures r.next == p.(state := p.state.(isOpen := false))
    ensures forall e :: e in r.effects ==> e.UserOnExit?
    ensures forall c: CbId, q :: UserOnExit(c, q) in r.effects <==> UserExitHandler(p.config) == Some(c) && q == params
    ensures |r.effects| == if UserExitHandler(p.config).Some? then 1 else 0
  {
    var user := match UserExitHandler(p.config)
      case Some(u) => [UserOnExit(u, params)]
      case None => [];
    Step(p.(state := p.state.(isOpen := false)), user)
  }

  /** Second half of the exit event: call whatever callback is pending at
      that moment, and keep it pending. */
  function ExitEventFinish(p: Instance): (r: Step)
    ensures r.next == p
    ensures forall e :: e in r.effects ==> e.Invoke?
    ensures forall c: CbId :: Invoke(c) in r.effects <==> p.state.pending == Some(c)
    ensures |r.effects| == if p.state.pending.Some? then 1 else 0
  {
    Step(p, InvokeIfSet(p.state.pending))
  }

  /** The whole exit event when the handler does not call back into the
      factory: mark closed, call the configured handler once, then the
      pending callback once. The pending callback is called but kept. */
  function ExitEvent(p: Instance, params: seq<Value>): (r: Step)
    ensures r.next.config == p.config
    ensures r.next.state == p.state.(isOpen := false)
    ensures forall e :: e in r.effects ==> !e.IsSdkCall()
    ensures forall c: CbId :: Invoke(c) in r.effects <==> p.state.pending == Some(c)
    ensures forall c: CbId, q :: UserOnExit(c, q) in r.effects <==> UserExitHandler(p.config) == Some(c) && q == params
    ensures |r.effects| == (if UserExitHandler(p.config).Some? then 1 else 0) + (if p.state.pending.Some? then 1 else 0)
    ensures UserExitHandler(p.config).Some? ==> r.effects[0] == UserOnExit(UserExitHandler(p.config).value, params)
    ensures p.state.pending.Some? ==> r.effects[|r.effects| - 1] == Invoke(p.state.pending.value)
  {
    var start := ExitEventStart(p, params);
    var finish := ExitEventFinish(start.next);
    Step(finish.next, start.effects + finish.effects)
  }
}
