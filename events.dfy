/** The `Event` script module (start.go, `loadModules`) and the host-side wiring of the six
    lifecycle events (start.go, `setupHooks`). A registry maps an event name to the ordered list
    of callbacks registered for it. Callbacks are opaque values of a type parameter. */
module Events {

  /** The lifecycle events the host forwards to the script registry, in `setupHooks` order. */
  const LifecycleEvents: seq<string> := ["enter", "new_song", "skip", "play", "pause", "exit"]

  /** The callbacks registered under `name`; a name never registered reads as an empty list
      (in the script, `events[name]` is nil). */
  function HooksOf<C>(events: map<string, seq<C>>, name: string): seq<C> {
    if name in events then events[name] else []
  }

  /** The registry after `add_hook(name, f)`. */
  function WithHook<C>(events: map<string, seq<C>>, name: string, f: C): (r: map<string, seq<C>>)
    ensures HooksOf(r, name) == HooksOf(events, name) + [f]
    ensures forall n :: n != name ==> HooksOf(r, n) == HooksOf(events, n)
    ensures r.Keys == events.Keys + {name}
  {
    events[name := HooksOf(events, name) + [f]]
  }

  /** The registry after the registrations `regs`, made one after another. */
  function Replay<C>(events: map<string, seq<C>>, regs: seq<(string, C)>): map<string, seq<C>>
    decreases |regs|
  {
    if regs == [] then events else Replay(WithHook(events, regs[0].0, regs[0].1), regs[1..])
  }

  /** The callbacks among `regs` registered under `name`, in registration order. */
  function RegisteredFor<C>(regs: seq<(string, C)>, name: string): seq<C>
    decreases |regs|
  {
    if regs == [] then []
    else (if regs[0].0 == name then [regs[0].1] else []) + RegisteredFor(regs[1..], name)
  }

  /** Registration appends: after any series of `add_hook` calls, the list for a name is the old
      list followed by every callback registered under that name, in registration order and with
      duplicates kept. */
  lemma {:induction false} ReplayAppends<C>(events: map<string, seq<C>>, regs: seq<(string, C)>, name: string)
    ensures HooksOf(Replay(events, regs), name) == HooksOf(events, name) + RegisteredFor(regs, name)
    decreases |regs|
  {
    if regs != [] {
      ReplayAppends(WithHook(events, regs[0].0, regs[0].1), regs[1..], name);
    }
  }

  /** A callback registered twice under one name is fired twice. */
  lemma DuplicatesKept<C>(name: string, f: C)
    ensures HooksOf(Replay(map[], [(name, f), (name, f)]), name) == [f, f]
  {
    var regs := [(name, f), (name, f)];
    ReplayAppends(map[], regs, name);
    assert regs[1..][1..] == [];
    assert RegisteredFor(regs, name) == [f] + RegisteredFor(regs[1..], name);
  }

  /** The registry an `Event` module (or the host's hook table) keeps. */
  class HookRegistry<C> {
    var events: map<string, seq<C>>

    /** `events = {}` */
    constructor ()
      ensures events == map[]
    {
      events := map[];
    }

    /** `add_hook(name, f)`: an unseen name gets the one-element list `[f]`, a seen name gets
        `f` appended at the end. */
    method AddHook(name: string, f: C)
      modifies this
      ensures events == WithHook(old(events), name, f)
    {
      if name !in events {
        assert HooksOf(events, name) + [f] == [f];
        events := events[name := [f]];
        return;
      }
      var hooks := events[name];
      hooks := hooks + [f];
      events := events[name := hooks];
    }

    /** `run_hooks(name)`: calls the registered callbacks one after another and returns the
        callbacks it called, in call order. Callbacks read and change shared script state, so
        whether a call fails is decided per call: `fails(k)` is the outcome of the k-th call of
        this firing (counting from 0), whichever callback it is. A failing call ends the firing:
        the interpreter propagates the error out of the loop, so later callbacks are not called.
        An unregistered name calls nothing and fails nothing. */
    method RunHooks(name: string, fails: nat -> bool) returns (called: seq<C>, failed: bool)
      ensures name !in events ==> called == [] && !failed
      ensures |called| <= |HooksOf(events, name)| && called == HooksOf(events, name)[..|called|]
      ensures !failed ==> called == HooksOf(events, name)
      ensures failed <==> 0 < |called| && fails(|called| - 1)
      ensures forall k: nat :: k < |called| - 1 ==> !fails(k)
      ensures !failed ==> forall k: nat :: k < |called| ==> !fails(k)
    {
      called, failed := [], false;
      if name !in events {
        return;
      }
      var hooks := events[name];
      var i := 0;
      while i < |hooks|
        invariant 0 <= i <= |hooks|
        invariant called == hooks[..i]
        invariant forall k: nat :: k < i ==> !fails(k)
      {
        called := called + [hooks[i]];
        if fails(i) {
          failed := true;
          return;
        }
        i := i + 1;
      }
      assert hooks[..|hooks|] == hooks;
    }

    /** A callback registered twice can succeed on its first call and fail on its second: the
        firing then calls it twice and fails. */
    method RunTwiceFailingSecond(name: string, f: C) returns (called: seq<C>, failed: bool)
      requires HooksOf(events, name) == [f, f]
      ensures called == [f, f] && failed
    {
      called, failed := RunHooks(name, k => k == 1);
    }
  }

  /** A host hook: the closure `setupHooks` registers, which executes
      `Event.run_hooks("<event>")` in the interpreter. */
  datatype HostHook = RunScriptHooks(event: string)

  /** `setupHooks`: registers on the host table one forwarding hook per lifecycle event. */
  method SetupHooks(host: HookRegistry<HostHook>)
    modifies host
    ensures host.events == Replay(old(host.events), ForwardingRegistrations())
    ensures forall e :: e in LifecycleEvents ==> HooksOf(host.events, e) == HooksOf(old(host.events), e) + [RunScriptHooks(e)]
    ensures forall n :: n !in LifecycleEvents ==> HooksOf(host.events, n) == HooksOf(old(host.events), n)
  {
    ghost var start := host.events;
    for i := 0 to |LifecycleEvents|
      invariant host.events == Replay(start, ForwardingRegistrations()[..i])
    {
      var name := LifecycleEvents[i];
      ReplayStep(start, ForwardingRegistrations(), i);
      host.AddHook(name, RunScriptHooks(name));
    }
    assert ForwardingRegistrations()[..|LifecycleEvents|] == ForwardingRegistrations();
    forall n ensures HooksOf(host.events, n) == HooksOf(start, n) + RegisteredFor(ForwardingRegistrations(), n) {
      ReplayAppends(start, ForwardingRegistrations(), n);
    }
    ForwardingOnePerEvent();
  }

  /** The registrations `setupHooks` makes, in order. */
  function ForwardingRegistrations(): (regs: seq<(string, HostHook)>)
    ensures |regs| == |LifecycleEvents|
    ensures forall k :: 0 <= k < |regs| ==> regs[k] == (LifecycleEvents[k], RunScriptHooks(LifecycleEvents[k]))
  {
    Forwarding(LifecycleEvents)
  }

  /** One forwarding registration per name of `names`, in order. */
  function Forwarding(names: seq<string>): (regs: seq<(string, HostHook)>)
    ensures |regs| == |names|
    ensures forall k :: 0 <= k < |regs| ==> regs[k] == (names[k], RunScriptHooks(names[k]))
  {
    if names == [] then [] else [(names[0], RunScriptHooks(names[0]))] + Forwarding(names[1..])
  }

  /** No name occurs twice. */
  predicate UniqueNames(names: seq<string>) {
    forall i, j :: 0 <= i < j < |names| ==> names[i] != names[j]
  }

  /** Forwarding a list of distinct names registers each of them exactly once and nothing else. */
  lemma {:induction false} ForwardingFor(names: seq<string>, n: string)
    requires UniqueNames(names)
    ensures RegisteredFor(Forwarding(names), n) == if n in names then [RunScriptHooks(n)] else []
    decreases |names|
  {
    if names != [] {
      UniqueTail(names);
      ForwardingFor(names[1..], n);
      var regs := Forwarding(names);
      assert regs == [(names[0], RunScriptHooks(names[0]))] + Forwarding(names[1..]);
      assert regs[1..] == Forwarding(names[1..]);
      assert n in names <==> n == names[0] || n in names[1..];
    }
  }

  /** The tail of a list of distinct names is distinct and does not hold the head. */
  lemma UniqueTail(names: seq<string>)
    requires UniqueNames(names) && names != []
    ensures UniqueNames(names[1..]) && names[0] !in names[1..]
  {
    forall i, j | 0 <= i < j < |names[1..]| ensures names[1..][i] != names[1..][j] {
      assert names[1..][i] == names[i + 1] && names[1..][j] == names[j + 1];
    }
    forall k | 0 <= k < |names[1..]| ensures names[1..][k] != names[0] {
      assert names[1..][k] == names[k + 1];
    }
  }

  /** Each lifecycle event gets exactly one forwarding hook, and no other name gets any. */
  lemma ForwardingOnePerEvent()
    ensures forall e :: e in LifecycleEvents ==> RegisteredFor(ForwardingRegistrations(), e) == [RunScriptHooks(e)]
    ensures forall n :: n !in LifecycleEvents ==> RegisteredFor(ForwardingRegistrations(), n) == []
  {
    assert UniqueNames(LifecycleEvents) by {
      var names := LifecycleEvents;
      assert names[0][0] == 'e' && names[1][0] == 'n' && names[2][0] == 's';
      assert names[3][..2] == "pl" && names[4][..2] == "pa" && names[5][..2] == "ex";
    }
    forall n ensures RegisteredFor(ForwardingRegistrations(), n) == if n in LifecycleEvents then [RunScriptHooks(n)] else [] {
      ForwardingFor(LifecycleEvents, n);
    }
  }

  /** Replaying one more registration extends the replay of the prefix by that registration. */
  lemma {:induction false} ReplayStep<C>(events: map<string, seq<C>>, regs: seq<(string, C)>, i: nat)
    requires i < |regs|
    ensures Replay(events, regs[..i + 1]) == WithHook(Replay(events, regs[..i]), regs[i].0, regs[i].1)
    decreases i
  {
    if i > 0 {
      assert regs[..i + 1][1..] == regs[1..][..i];
      assert regs[..i][1..] == regs[1..][..i - 1];
      ReplayStep(WithHook(events, regs[0].0, regs[0].1), regs[1..], i - 1);
    }
  }
}
