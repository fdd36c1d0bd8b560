# Link-handler factory lifecycle, in Dafny

This project models `createPlaid` from react-plaid-link. It is the factory that wraps one handle of the Plaid Link browser SDK and keeps a little bookkeeping about it:

- whether the handle is held;
- whether the overlay is open;
- which exit callback is pending.

The factory exposes `open`, `exit` and `destroy`. It also installs its own wrapper as the SDK's `onExit` handler, which the SDK fires whenever the overlay closes (possibly more than once). Before creating the handle it renames the legacy `publicKey` option to the SDK's `key` with a small helper, `renameKeyInObject`.

The SDK itself is treated as an abstract sink. Every call the factory makes into it, and every callback the factory invokes, is recorded as an `Effect`, in order. Each operation is a pure function from an `Instance` (the configuration its exit wrapper closes over, plus the `State`) to the next instance and the effects it emitted.

Modules:

- `Wrappers` (wrappers.dfy): `Option` stands for `undefined`/`null`. `Result` stands for the one thrown error.
- `Rename` (rename.dfy): objects as `map<string, Option<V>>`, and the key rename.
- `Factory` (factory.dfy): construction and the four transitions (`open`, `exit`, `destroy`, and the exit event).
- `Lifecycle` (lifecycle.dfy): traces of calls interleaved with exit events, the open/closed/destroyed phases, and the properties that span several calls.

Some behaviours of the code are worth knowing:

- The exit event calls the pending callback but does not clear it. If the SDK fires the exit event twice, the callback runs twice (`CallbackCanFireTwice`). Nothing in the wrapper guards against it.
- `destroy` drops the handle but leaves the open flag alone, so a destroyed instance can still read as open (`DestroyWhileOpenStaysOpen`).
- `open` is accepted while the overlay is already open. It emits a second SDK open.
- The wrapper reads the pending slot only after the configured `onExit` has returned (src/factory.ts:52-53). A handler that calls `open` therefore suppresses the pending callback (`ReentrantOpenSuppressesCallback`). A handler that calls `open` and then `exit` has its new callback run at once by the same event (`ReentrantExitRunsNewCallback`). To capture this, the exit event is modelled both as one step and as two halves. Calls made from the handler go between the halves.

Even so, once `destroy` has finished, no later call reaches the SDK (`DestroyedIsInert`). The exception, an exit event fired inside the SDK's own destroy, is listed under "## Left out". A function that is neither pending nor handed to `exit` is never invoked as the exit callback. It is not called at all unless it is the configured handler (`CallbackOnlyFiresIfGiven`).

## Model

| member | source | states |
|---|---|---|
| Rename.RenameKey | src/factory.ts:15-23 | the copy has no old key. For distinct keys, the new key holds the old key's value (`undefined` if absent), and the key set is the old one with the old key swapped for the new. Every other key keeps its value. With equal keys, that key is simply deleted |
| Rename.RenameKeyRoundTrip | src/factory.ts:15-23 | renaming back restores the original object when the old key was present and the new key free |
| Factory.Create | src/factory.ts:28-55 | fails with "not loaded" exactly when the SDK is missing, with no effect. Otherwise the kept configuration is the options with `publicKey` renamed to `key` (characterized by `Rename.IsRenamed`). There is exactly one SDK create call, carrying that configuration with `onExit` overridden by the factory's wrapper. The instance starts with a handle, closed, and nothing pending |
| Factory.Open | src/factory.ts:59-66 | without a handle, nothing changes and nothing is emitted. With one, the overlay is open, the pending callback is cleared, and exactly one SDK open carries the arguments unchanged |
| Factory.Exit | src/factory.ts:68-78 | when closed or without a handle, the state is unchanged and the only effect is calling the callback, if given. When open with a handle, the callback becomes pending, exactly one SDK exit carries the options, and the instance stays open iff the exit is not forced |
| Factory.Destroy | src/factory.ts:80-87 | the handle is gone afterwards. One SDK destroy is emitted iff a handle was held, otherwise nothing changes. The open flag and the pending callback are untouched |
| Factory.ExitEventStart | src/factory.ts:48-52 | marks closed and changes nothing else. Its only effects are calls of the configured handler: exactly one, with the event's arguments, iff a function handler is configured |
| Factory.ExitEventFinish | src/factory.ts:53 | changes nothing. Its only effects are calls of pending callbacks: exactly one, of the callback pending at that moment, iff one is set |
| Factory.ExitEvent | src/factory.ts:48-54 | marks closed and changes nothing else, including the pending callback. It emits no SDK call. It calls the configured handler (with the event's arguments) iff there is one, and the pending callback iff one is set. Each is called at most once, the handler first and the pending callback last |
| Lifecycle.Run | src/factory.ts:28-94 | the trace semantics used by the lemmas below: calls run in order and their effects are concatenated. Its own contract only records that the configuration the exit wrapper closes over stays fixed, since no transition writes it |
| Lifecycle.PhaseTransitions | src/factory.ts:59-87 | the phase moves as follows: open gives open (unless destroyed); exit closes only a forced exit from open; the exit event and its first half close (unless destroyed); its second half changes nothing; destroy always ends destroyed |
| Lifecycle.CreateStartsClosed | src/factory.ts:29-46 | construction with the SDK present succeeds and starts closed |
| Lifecycle.CreateRenamesPublicKey | src/factory.ts:40-55 | options `{publicKey: "pk_1", onExit: f}` reach the SDK as exactly `{key: "pk_1", onExit: <wrapper>}`, and `f` stays the handler the wrapper calls |
| Lifecycle.DestroyIdempotent | src/factory.ts:80-87 | a second destroy changes nothing and emits nothing |
| Lifecycle.DestroyedIsInert | src/factory.ts:59-87 | without a handle, any sequence of calls and exit events keeps the handle absent and emits no SDK call |
| Lifecycle.AfterDestroy | src/factory.ts:68-87 | in a trace that starts with destroy, the first effect is an SDK destroy iff a handle was held, and no later effect is an SDK call. Exit after destroy just calls its callback |
| Lifecycle.CallbackOnlyFiresIfGiven | src/factory.ts:48-78 | a function that is not pending and is never handed to exit is never invoked as the exit callback. Unless it is the configured handler, it is not called at all |
| Lifecycle.StaleCallbackDiscarded | src/factory.ts:63-64 | after a fresh open, the previously pending callback never fires unless it is passed to exit again |
| Lifecycle.OpenExitCycle | src/factory.ts:48-78 | after open, exit and the exit event, the overlay is closed with the handle kept. The SDK saw the open and then the exit, and the exit callback fired exactly once |
| Lifecycle.OneInvokePerEvent | src/factory.ts:53 | each exit event invokes the pending callback exactly once |
| Lifecycle.CallbackCanFireTwice | src/factory.ts:48-54 | two exit events invoke the same pending callback twice, and it stays pending |
| Lifecycle.ExitEventHalves | src/factory.ts:48-54 | the two halves of the exit event, run back to back, give exactly the whole event |
| Lifecycle.ReentrantOpenSuppressesCallback | src/factory.ts:52-53 | when the configured handler calls open during the exit event, the pending callback does not run, and the overlay ends open with nothing pending |
| Lifecycle.ReentrantExitRunsNewCallback | src/factory.ts:52-53 | when the configured handler calls open and then exit with a new callback, the same exit event ends by calling that new callback, which stays pending |
| Lifecycle.DestroyWhileOpenStaysOpen | src/factory.ts:85-86 | open then destroy leaves no handle and the open flag still set, having emitted the SDK open and then the SDK destroy |

## Left out

- The `typeof window` / `window.Plaid` lookup: host-environment plumbing. It is the boolean `sdkLoaded` given to `Create`.
- The SDK's own behaviour (iframe, overlay, what `create`/`open`/`exit`/`destroy` do inside): an external library. It appears only as emitted effects. `create` is assumed to return a handle.
- The exit event firing re-entrantly, from inside the SDK's `open`, `exit` or `destroy`: it is modelled as a separate step. When neither the configured handler nor the pending callback calls into the factory, firing inside those calls reaches the same state, with the same effects in the same order, as firing right after them. This equivalence is argued here, not proved. Among the cases where it fails, the two below are not modelled. The list is not claimed to be complete.
- Factory.Exit: a forced exit whose SDK call fires the exit event synchronously, with a handler or pending callback that calls `open`, is not modelled. The source reopens the overlay inside `plaid.exit` and then clears the open flag at src/factory.ts:76. It ends reopened, with the flag false and nothing pending. The model's nearest trace (exit, event, open) ends with the flag true.
- Factory.Destroy: a destroy whose SDK call fires the exit event synchronously, with a handler or pending callback that calls `open` or `destroy`, is not modelled. The handle is only dropped at src/factory.ts:86, so the guard at line 81 still sees it. A nested `open` then sends the SDK an open after its destroy. A nested `destroy` calls the SDK's destroy a second time. No trace of the model that starts with destroy emits an SDK call after that destroy.
- Factory.ExitEvent: the one-step event assumes the configured handler makes no calls into the factory. Re-entrant calls from the handler are modelled by the `ExitEventStart`/`ExitEventFinish` halves instead. A callback called at src/factory.ts:70 is the last thing `exit` does, and one called at line 53 is the last thing the wrapper does. So a call either makes is the same as the next step of the trace, unless the event itself is firing inside the SDK's `exit` or `destroy` (the two lines above).
- Factory.ExitEvent / Factory.Exit / Factory.Destroy: SDK calls and callbacks are assumed to return normally. The source has no `try`, so a throw cuts the closure short. A configured `onExit` that throws at src/factory.ts:52 skips line 53, and the pending callback does not run. A `plaid.exit` that throws at line 74 skips line 76, so a forced exit leaves the overlay marked open. A `plaid.destroy` that throws at line 85 skips line 86, so the handle is kept.
- The contents of the `open` arguments, of the event parameters and of the exit options apart from `force`: opaque values passed through unchanged.
- JavaScript truthiness beyond present/absent: callbacks are `Option<CbId>` and `force` is a `bool`.
- Factory.ExitEvent: a configured `onExit` that is truthy but not a function would throw in the source. The model calls the handler only when it is a function and otherwise skips it. The option's declared type only admits functions. A caller's option holding the factory's own wrapper (`ExitWrapper`) is likewise treated as no handler, although the source would call it. A caller cannot obtain that wrapper, which exists only inside the SDK config.
- Rename.RenameKey: property order, inherited properties (a key read through the prototype chain) and symbol keys are not modelled. Objects are finite maps of own string keys.
- `./types` (`PlaidLinkOptions`, `Plaid`): type declarations only. That file is not part of this model.
