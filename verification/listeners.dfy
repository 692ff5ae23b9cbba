/** The listener registry of the view and the fan-out of one event over it.

    Listeners are opaque identities. Two kinds exist: listeners the host
    registers, and the one-shot ready listener the view creates for
    `getYouTubePlayerWhenReady`, which on `onReady` removes itself from the
    registry and then invokes the host's callback. Host listeners' own
    callbacks are outside this model and are taken not to touch the registry.

    `Dispatch` fans an event out over the registry as it stands when the
    dispatch begins. `LiveDispatch` models the source's iteration over the
    live list instead, where the one-shot listener's self-removal is a
    concurrent modification. */
module Listeners {
  import opened Player

  type ListenerId = nat
  type CallbackId = nat

  datatype Listener =
    | Host(id: ListenerId)
    /** The one-shot ready listener; `serial` gives each one its own identity. */
    | OneShot(serial: nat, callback: CallbackId)

  /** The callbacks of `YouTubePlayerListener`. */
  datatype Event =
    | Ready
    | StateChange(state: PlayerState)
    | PlaybackQualityChange(quality: string)
    | PlaybackRateChange(rate: string)
    | Error(error: string)
    | CurrentSecond(second: real)
    | VideoDuration(duration: real)
    | VideoLoadedFraction(fraction: real)
    | VideoId(videoId: string)

  /** What the host observes: a callback of a listener, or a `whenReady` callback. */
  datatype Effect = Deliver(listener: Listener, event: Event) | Invoke(callback: CallbackId)

  // ---------------------------------------------------------------- registry

  /** The position of the first occurrence of `l`. */
  function IndexOf(ls: seq<Listener>, l: Listener): (i: nat)
    requires l in ls
    ensures i < |ls| && ls[i] == l && l !in ls[..i]
    decreases |ls|
  {
    if ls[0] == l then 0 else 1 + IndexOf(ls[1..], l)
  }

  /** `MutableList.remove(element)`: drops the first occurrence of `l` only;
      a list without `l` is left as it is. */
  function RemoveFirst(ls: seq<Listener>, l: Listener): (r: seq<Listener>)
    ensures l !in ls ==> r == ls
    decreases |ls|
  {
    if |ls| == 0 then []
    else if ls[0] == l then ls[1..] else [ls[0]] + RemoveFirst(ls[1..], l)
  }

  lemma InCons(ls: seq<Listener>, l: Listener)
    requires |ls| > 0
    ensures l in ls <==> ls[0] == l || l in ls[1..]
  {
    assert ls == [ls[0]] + ls[1..];
  }

  /** Removal cuts out exactly the first occurrence and keeps the order of
      everything else. */
  lemma {:induction false} RemoveFirstAt(ls: seq<Listener>, l: Listener)
    requires l in ls
    ensures RemoveFirst(ls, l) == ls[..IndexOf(ls, l)] + ls[IndexOf(ls, l) + 1..]
    decreases |ls|
  {
    if ls[0] != l {
      InCons(ls, l);
      RemoveFirstAt(ls[1..], l);
      var i := IndexOf(ls[1..], l);
      assert ls[..i + 1] == [ls[0]] + ls[1..][..i];
      assert ls[i + 2..] == ls[1..][i + 1..];
    }
  }

  /** Removal takes away one copy of `l` and nothing else. */
  lemma {:induction false} RemoveFirstCount(ls: seq<Listener>, l: Listener)
    ensures multiset(RemoveFirst(ls, l)) == multiset(ls) - multiset{l}
    decreases |ls|
  {
    if |ls| > 0 {
      assert ls == [ls[0]] + ls[1..];
      RemoveFirstCount(ls[1..], l);
    }
  }

  /** Removing a listener right after adding it undoes the add when it was
      not registered before; otherwise the older registration goes and the
      new one stays at the end. */
  lemma {:induction false} RemoveAfterAdd(ls: seq<Listener>, l: Listener)
    ensures RemoveFirst(ls + [l], l) == if l in ls then RemoveFirst(ls, l) + [l] else ls
    decreases |ls|
  {
    if |ls| == 0 {
      assert [] + [l] == [l];
    } else {
      var t := ls[1..];
      assert (ls + [l])[1..] == t + [l];
      assert (ls + [l])[0] == ls[0];
      if ls[0] == l {
        assert RemoveFirst(ls + [l], l) == t + [l];
        assert RemoveFirst(ls, l) == t;
      } else {
        InCons(ls, l);
        RemoveAfterAdd(t, l);
        assert RemoveFirst(ls + [l], l) == [ls[0]] + RemoveFirst(t + [l], l);
        if l in t {
          assert RemoveFirst(ls, l) == [ls[0]] + RemoveFirst(t, l);
          assert [ls[0]] + (RemoveFirst(t, l) + [l]) == ([ls[0]] + RemoveFirst(t, l)) + [l];
        } else {
          assert ls == [ls[0]] + t;
        }
      }
    }
  }

  /** Removing `l` from a list whose prefix `p` does not hold it. */
  lemma {:induction false} RemoveFirstPastPrefix(p: seq<Listener>, l: Listener, q: seq<Listener>)
    requires l !in p
    ensures RemoveFirst(p + ([l] + q), l) == p + q
    decreases |p|
  {
    if |p| == 0 {
      assert p + ([l] + q) == [l] + q;
    } else {
      assert (p + ([l] + q))[1..] == p[1..] + ([l] + q);
      InCons(p, l);
      RemoveFirstPastPrefix(p[1..], l, q);
      assert p + q == [p[0]] + (p[1..] + q);
    }
  }

  predicate NoOneShots(ls: seq<Listener>) {
    forall i :: 0 <= i < |ls| ==> ls[i].Host?
  }

  lemma OneShotNotIn(ls: seq<Listener>, l: Listener)
    requires NoOneShots(ls) && l.OneShot?
    ensures l !in ls
  {
  }

  /** The host listeners of `ls`, in order: what a ready dispatch leaves. */
  function Persistent(ls: seq<Listener>): (r: seq<Listener>)
    ensures NoOneShots(r)
    ensures |r| <= |ls|
    ensures NoOneShots(ls) ==> r == ls
    decreases |ls|
  {
    if |ls| == 0 then []
    else if ls[0].Host? then
      assert ls == [ls[0]] + ls[1..];
      [ls[0]] + Persistent(ls[1..])
    else Persistent(ls[1..])
  }

  /** The callbacks of the one-shot listeners of `ls`, in order. */
  function ReadyCallbacks(ls: seq<Listener>): seq<CallbackId>
    decreases |ls|
  {
    if |ls| == 0 then []
    else (if ls[0].OneShot? then [ls[0].callback] else []) + ReadyCallbacks(ls[1..])
  }

  // ---------------------------------------------------------------- traces

  /** One delivery of `e` to each listener of `ls`, in order. */
  function Broadcast(ls: seq<Listener>, e: Event): (r: seq<Effect>)
    ensures |r| == |ls|
    ensures forall i :: 0 <= i < |ls| ==> r[i] == Deliver(ls[i], e)
    decreases |ls|
  {
    if |ls| == 0 then [] else [Deliver(ls[0], e)] + Broadcast(ls[1..], e)
  }

  /** The listener callbacks of a trace, in order. */
  function Deliveries(es: seq<Effect>): seq<Effect>
    decreases |es|
  {
    if |es| == 0 then [] else (if es[0].Deliver? then [es[0]] else []) + Deliveries(es[1..])
  }

  /** The `whenReady` callbacks of a trace, in order. */
  function Invocations(es: seq<Effect>): seq<CallbackId>
    decreases |es|
  {
    if |es| == 0 then [] else (if es[0].Invoke? then [es[0].callback] else []) + Invocations(es[1..])
  }

  lemma {:induction false} DeliveriesAppend(a: seq<Effect>, b: seq<Effect>)
    ensures Deliveries(a + b) == Deliveries(a) + Deliveries(b)
    ensures Invocations(a + b) == Invocations(a) + Invocations(b)
    decreases |a|
  {
    if |a| == 0 {
      assert a + b == b;
    } else {
      assert (a + b)[0] == a[0];
      assert (a + b)[1..] == a[1..] + b;
      DeliveriesAppend(a[1..], b);
      var d := if a[0].Deliver? then [a[0]] else [];
      assert Deliveries(a + b) == d + (Deliveries(a[1..]) + Deliveries(b));
      assert d + (Deliveries(a[1..]) + Deliveries(b)) == (d + Deliveries(a[1..])) + Deliveries(b);
      var c := if a[0].Invoke? then [a[0].callback] else [];
      assert Invocations(a + b) == c + (Invocations(a[1..]) + Invocations(b));
      assert c + (Invocations(a[1..]) + Invocations(b)) == (c + Invocations(a[1..])) + Invocations(b);
    }
  }

  /** How often `l` is told `Ready` in a trace. */
  function ReadyCount(es: seq<Effect>, l: Listener): nat {
    multiset(es)[Deliver(l, Ready)]
  }

  // ---------------------------------------------------------------- dispatch

  /** What one listener's callback for `e` contributes to the trace: the
      delivery itself and, for a one-shot listener told `Ready`, its
      host callback. */
  function Reaction(l: Listener, e: Event): seq<Effect> {
    if l.OneShot? && e.Ready? then [Deliver(l, e), Invoke(l.callback)] else [Deliver(l, e)]
  }

  /** The trace of a dispatch over the listeners `ls`, one reaction each. */
  function Trace(ls: seq<Listener>, e: Event): seq<Effect>
    decreases |ls|
  {
    if |ls| == 0 then [] else Reaction(ls[0], e) + Trace(ls[1..], e)
  }

  datatype Fanout = Fanout(effects: seq<Effect>, live: seq<Listener>)

  /** Delivers `e` to `l` while the registry holds `live`; the one-shot
      listener removes itself from the registry before invoking its callback. */
  function Notify(l: Listener, e: Event, live: seq<Listener>): Fanout {
    if l.OneShot? && e.Ready? then Fanout(Reaction(l, e), RemoveFirst(live, l))
    else Fanout(Reaction(l, e), live)
  }

  /** Delivers `e` to each listener of `pending` in turn, threading the
      registry through the callbacks. */
  function DispatchOver(pending: seq<Listener>, e: Event, live: seq<Listener>): Fanout
    decreases |pending|
  {
    if |pending| == 0 then Fanout([], live)
    else
      var n := Notify(pending[0], e, live);
      var rest := DispatchOver(pending[1..], e, n.live);
      Fanout(n.effects + rest.effects, rest.live)
  }

  lemma {:induction false} DispatchOverSpec(kept: seq<Listener>, pending: seq<Listener>, e: Event)
    requires e.Ready? ==> NoOneShots(kept)
    ensures DispatchOver(pending, e, kept + pending).effects == Trace(pending, e)
    ensures DispatchOver(pending, e, kept + pending).live ==
      kept + (if e.Ready? then Persistent(pending) else pending)
    decreases |pending|
  {
    if |pending| == 0 {
      assert kept + pending == kept;
      assert kept + [] == kept;
    } else {
      var l := pending[0];
      var rest := pending[1..];
      if l.OneShot? && e.Ready? {
        DispatchOverSpec(kept, rest, e);
        DispatchOverRemoves(kept, pending, e);
      } else {
        assert e.Ready? ==> NoOneShots(kept + [l]);
        DispatchOverSpec(kept + [l], rest, e);
        DispatchOverKeeps(kept, pending, e);
      }
    }
  }

  /** The step of `DispatchOverSpec` at a one-shot listener told `Ready`. */
  lemma DispatchOverRemoves(kept: seq<Listener>, pending: seq<Listener>, e: Event)
    requires |pending| > 0 && pending[0].OneShot? && e.Ready? && NoOneShots(kept)
    requires DispatchOver(pending[1..], e, kept + pending[1..]).effects == Trace(pending[1..], e)
    requires DispatchOver(pending[1..], e, kept + pending[1..]).live == kept + Persistent(pending[1..])
    ensures DispatchOver(pending, e, kept + pending).effects == Trace(pending, e)
    ensures DispatchOver(pending, e, kept + pending).live == kept + Persistent(pending)
  {
    var l := pending[0];
    var rest := pending[1..];
    assert kept + pending == kept + ([l] + rest) by {
      assert pending == [l] + rest;
    }
    OneShotNotIn(kept, l);
    RemoveFirstPastPrefix(kept, l, rest);
    assert Notify(l, e, kept + pending).live == kept + rest;
  }

  /** The step of `DispatchOverSpec` at any other listener. */
  lemma DispatchOverKeeps(kept: seq<Listener>, pending: seq<Listener>, e: Event)
    requires |pending| > 0 && !(pending[0].OneShot? && e.Ready?)
    requires DispatchOver(pending[1..], e, (kept + [pending[0]]) + pending[1..]).effects == Trace(pending[1..], e)
    requires DispatchOver(pending[1..], e, (kept + [pending[0]]) + pending[1..]).live ==
      (kept + [pending[0]]) + (if e.Ready? then Persistent(pending[1..]) else pending[1..])
    ensures DispatchOver(pending, e, kept + pending).effects == Trace(pending, e)
    ensures DispatchOver(pending, e, kept + pending).live ==
      kept + (if e.Ready? then Persistent(pending) else pending)
  {
    ConsSplit(kept, pending);
    KeptLive(kept, pending, e);
  }

  lemma ConsSplit(kept: seq<Listener>, pending: seq<Listener>)
    requires |pending| > 0
    ensures kept + pending == (kept + [pending[0]]) + pending[1..]
  {
    assert pending == [pending[0]] + pending[1..];
  }

  lemma KeptLive(kept: seq<Listener>, pending: seq<Listener>, e: Event)
    requires |pending| > 0 && !(pending[0].OneShot? && e.Ready?)
    ensures (kept + [pending[0]]) + (if e.Ready? then Persistent(pending[1..]) else pending[1..]) ==
      kept + (if e.Ready? then Persistent(pending) else pending)
  {
    var l := pending[0];
    if e.Ready? {
      assert Persistent(pending) == [l] + Persistent(pending[1..]);
      AppendAssoc(kept, [l], Persistent(pending[1..]));
    } else {
      assert pending == [l] + pending[1..];
      AppendAssoc(kept, [l], pending[1..]);
    }
  }

  lemma AppendAssoc<T>(a: seq<T>, b: seq<T>, c: seq<T>)
    ensures (a + b) + c == a + (b + c)
  {
  }

  lemma {:induction false} TraceProjections(ls: seq<Listener>, e: Event)
    ensures Deliveries(Trace(ls, e)) == Broadcast(ls, e)
    ensures Invocations(Trace(ls, e)) == if e.Ready? then ReadyCallbacks(ls) else []
    decreases |ls|
  {
    if |ls| > 0 {
      DeliveriesAppend(Reaction(ls[0], e), Trace(ls[1..], e));
      TraceProjections(ls[1..], e);
      if ls[0].OneShot? && e.Ready? {
        assert Deliveries(Reaction(ls[0], e)) == [Deliver(ls[0], e)] by {
          assert Reaction(ls[0], e)[1..][1..] == [];
        }
        assert Invocations(Reaction(ls[0], e)) == [ls[0].callback] by {
          assert Reaction(ls[0], e)[1..][1..] == [];
        }
      } else {
        assert Reaction(ls[0], e)[1..] == [];
      }
    }
  }

  /** Fan-out over the registry as it stands when dispatch begins: every
      listener registered then is told `e` exactly once, in registration
      order, whatever the one-shot listeners do to the registry meanwhile;
      each one-shot listener told `Ready` invokes its callback and leaves the
      registry. */
  function Dispatch(ls: seq<Listener>, e: Event): (r: Fanout)
    ensures r.effects == Trace(ls, e)
    ensures Deliveries(r.effects) == Broadcast(ls, e)
    ensures Invocations(r.effects) == if e.Ready? then ReadyCallbacks(ls) else []
    ensures r.live == if e.Ready? then Persistent(ls) else ls
  {
    DispatchOverSpec([], ls, e);
    TraceProjections(ls, e);
    assert [] + ls == ls;
    DispatchOver(ls, e, ls)
  }

  /** A listener appears in a trace's `Ready` deliveries as often as it is
      registered. */
  lemma {:induction false} ReadyCountBroadcast(ls: seq<Listener>, e: Event, l: Listener)
    ensures multiset(Broadcast(ls, e))[Deliver(l, Ready)] == if e.Ready? then multiset(ls)[l] else 0
    decreases |ls|
  {
    if |ls| > 0 {
      assert ls == [ls[0]] + ls[1..];
      assert multiset(ls) == multiset{ls[0]} + multiset(ls[1..]);
      var b := Broadcast(ls, e);
      assert b == [Deliver(ls[0], e)] + Broadcast(ls[1..], e);
      assert multiset(b) == multiset{Deliver(ls[0], e)} + multiset(Broadcast(ls[1..], e));
      ReadyCountBroadcast(ls[1..], e, l);
    }
  }

  /** Only deliveries count towards `ReadyCount`. */
  lemma {:induction false} ReadyCountDeliveries(es: seq<Effect>, l: Listener)
    ensures ReadyCount(Deliveries(es), l) == ReadyCount(es, l)
    decreases |es|
  {
    if |es| > 0 {
      assert es == [es[0]] + es[1..];
      ReadyCountDeliveries(es[1..], l);
    }
  }

  /** A dispatch tells each listener `Ready` as often as it is registered,
      and only for a ready event. */
  lemma DispatchReadyCount(ls: seq<Listener>, e: Event, l: Listener)
    ensures ReadyCount(Dispatch(ls, e).effects, l) == if e.Ready? then multiset(ls)[l] else 0
  {
    ReadyCountDeliveries(Dispatch(ls, e).effects, l);
    ReadyCountBroadcast(ls, e, l);
  }

  lemma {:induction false} ReadyCallbacksAppend(a: seq<Listener>, b: seq<Listener>)
    ensures ReadyCallbacks(a + b) == ReadyCallbacks(a) + ReadyCallbacks(b)
    decreases |a|
  {
    if |a| == 0 {
      assert a + b == b;
    } else {
      assert (a + b)[0] == a[0];
      assert (a + b)[1..] == a[1..] + b;
      ReadyCallbacksAppend(a[1..], b);
      var c := if a[0].OneShot? then [a[0].callback] else [];
      assert ReadyCallbacks(a + b) == c + (ReadyCallbacks(a[1..]) + ReadyCallbacks(b));
      assert c + (ReadyCallbacks(a[1..]) + ReadyCallbacks(b)) == (c + ReadyCallbacks(a[1..])) + ReadyCallbacks(b);
    }
  }

  /** A one-shot listener registered last is told `Ready`, its callback
      runs after those of the one-shot listeners before it, and it leaves
      the registry. */
  lemma ReadyWithOneShotLast(ls: seq<Listener>, l: Listener)
    requires l.OneShot?
    ensures Invocations(Dispatch(ls + [l], Ready).effects) == ReadyCallbacks(ls) + [l.callback]
    ensures Dispatch(ls + [l], Ready).live == Persistent(ls)
  {
    ReadyCallbacksAppend(ls, [l]);
    PersistentAppend(ls, [l]);
    assert ReadyCallbacks([l]) == [l.callback];
    assert Persistent([l]) == [];
    assert Persistent(ls) + [] == Persistent(ls);
  }

  // ---------------------------------------------------------------- as written

  /** The result of iterating the live list: it either runs to its end or
      the iterator throws `ConcurrentModificationException`. */
  datatype LiveOutcome =
    | Completed(effects: seq<Effect>, live: seq<Listener>)
    | ConcurrentModification(effects: seq<Effect>, live: seq<Listener>)
  {
    function After(es: seq<Effect>): LiveOutcome {
      match this
      case Completed(x, l) => Completed(es + x, l)
      case ConcurrentModification(x, l) => ConcurrentModification(es + x, l)
    }
  }

  /** `listeners.forEach { ... }` over the live `ArrayList`, following the
      Android runtime's iterator: iteration is bounded by the size at the
      start (`limit`), and once the list has been structurally modified the
      next `next()` throws. */
  function LiveIterate(live: seq<Listener>, e: Event, limit: nat, cursor: nat, modified: bool): LiveOutcome
    requires cursor <= limit
    requires !modified ==> |live| == limit
    decreases limit - cursor
  {
    if cursor == limit then Completed([], live)
    else if modified then ConcurrentModification([], live)
    else
      var l := live[cursor];
      var n := Notify(l, e, live);
      LiveIterate(n.live, e, limit, cursor + 1, l.OneShot? && e.Ready?).After(n.effects)
  }

  function LiveDispatch(ls: seq<Listener>, e: Event): LiveOutcome {
    LiveIterate(ls, e, |ls|, 0, false)
  }

  lemma {:induction false} LiveIterateUnmodified(ls: seq<Listener>, e: Event, k: nat)
    requires k <= |ls|
    requires !e.Ready? || NoOneShots(ls)
    ensures LiveIterate(ls, e, |ls|, k, false) == Completed(Trace(ls[k..], e), ls)
    decreases |ls| - k
  {
    if k < |ls| {
      assert ls[k..] == [ls[k]] + ls[k + 1..];
      LiveIterateUnmodified(ls, e, k + 1);
    }
  }

  /** Where no one-shot listener is told `Ready`, iterating the live list is
      the same as dispatching over the registry as it stood. */
  lemma LiveDispatchAgrees(ls: seq<Listener>, e: Event)
    requires !e.Ready? || NoOneShots(ls)
    ensures LiveDispatch(ls, e) == Completed(Dispatch(ls, e).effects, Dispatch(ls, e).live)
  {
    LiveIterateUnmodified(ls, e, 0);
    assert ls[0..] == ls;
  }

  lemma {:induction false} LiveIterateHostPrefix(p: seq<Listener>, l: Listener, e: Event, k: nat)
    requires NoOneShots(p) && l.OneShot? && e.Ready? && k <= |p|
    ensures LiveIterate(p + [l], e, |p| + 1, k, false) == Completed(Trace((p + [l])[k..], e), p)
    decreases |p| - k
  {
    var ls := p + [l];
    assert ls[k..] == [ls[k]] + ls[k + 1..];
    if k < |p| {
      LiveIterateHostPrefix(p, l, e, k + 1);
    } else {
      OneShotNotIn(p, l);
      RemoveFirstPastPrefix(p, l, []);
      assert p + [] == p;
      assert ls[k + 1..] == [];
    }
  }

  /** A single one-shot listener registered last is harmless: the live
      iteration ends right after it removes itself. */
  lemma LiveDispatchOneShotLast(p: seq<Listener>, l: Listener)
    requires NoOneShots(p) && l.OneShot?
    ensures LiveDispatch(p + [l], Ready) ==
      Completed(Dispatch(p + [l], Ready).effects, Dispatch(p + [l], Ready).live)
  {
    LiveIterateHostPrefix(p, l, Ready, 0);
    assert (p + [l])[0..] == p + [l];
    assert Persistent(p + [l]) == p by {
      PersistentAppend(p, [l]);
    }
  }

  lemma {:induction false} PersistentAppend(a: seq<Listener>, b: seq<Listener>)
    ensures Persistent(a + b) == Persistent(a) + Persistent(b)
    decreases |a|
  {
    if |a| == 0 {
      assert a + b == b;
    } else {
      assert (a + b)[0] == a[0];
      assert (a + b)[1..] == a[1..] + b;
      PersistentAppend(a[1..], b);
      if a[0].Host? {
        assert Persistent(a + b) == [a[0]] + (Persistent(a[1..]) + Persistent(b));
        assert [a[0]] + (Persistent(a[1..]) + Persistent(b)) == ([a[0]] + Persistent(a[1..])) + Persistent(b);
      }
    }
  }

  /** A one-shot listener with a host listener after it: the live iteration
      throws `ConcurrentModificationException` after the one-shot removes
      itself, and the host listener is never told `Ready`; dispatching over
      the registry as it stood tells it. */
  lemma LiveDispatchDropsLaterListener()
    ensures var ls := [OneShot(0, 7), Host(1)];
      && LiveDispatch(ls, Ready) ==
           ConcurrentModification([Deliver(OneShot(0, 7), Ready), Invoke(7)], [Host(1)])
      && Dispatch(ls, Ready).effects ==
           [Deliver(OneShot(0, 7), Ready), Invoke(7), Deliver(Host(1), Ready)]
  {
    var ls := [OneShot(0, 7), Host(1)];
    assert RemoveFirst(ls, OneShot(0, 7)) == [Host(1)];
    assert LiveIterate([Host(1)], Ready, 2, 1, true) == ConcurrentModification([], [Host(1)]);
    assert ls[1..] == [Host(1)];
    assert Trace([Host(1)], Ready) == [Deliver(Host(1), Ready)];
  }

  /** Whether iterating the live list for `e` runs to its end: only a ready
      event modifies the list, and the one-shot listener's self-removal goes
      unnoticed only when nothing is left to iterate after it. */
  predicate LiveSafe(ls: seq<Listener>, e: Event) {
    !e.Ready? || |ls| == 0 || NoOneShots(ls[..|ls| - 1])
  }

  /** A live iteration that completes met no one-shot listener before the
      last place. */
  lemma {:induction false} LiveIterateCompleted(ls: seq<Listener>, k: nat)
    requires k <= |ls|
    requires LiveIterate(ls, Ready, |ls|, k, false).Completed?
    ensures forall i :: k <= i < |ls| - 1 ==> ls[i].Host?
    decreases |ls| - k
  {
    if k < |ls| {
      if ls[k].Host? {
        LiveIterateCompleted(ls, k + 1);
      }
    }
  }

  /** Iterating the live list completes exactly when `LiveSafe` holds, and
      then it is the same as `Dispatch`; otherwise the iterator throws. */
  lemma LiveDispatchExact(ls: seq<Listener>, e: Event)
    ensures LiveDispatch(ls, e).Completed? <==> LiveSafe(ls, e)
    ensures LiveSafe(ls, e) ==>
      LiveDispatch(ls, e) == Completed(Dispatch(ls, e).effects, Dispatch(ls, e).live)
  {
    if e.Ready? && |ls| > 0 && LiveDispatch(ls, e).Completed? {
      LiveIterateCompleted(ls, 0);
      assert NoOneShots(ls[..|ls| - 1]);
    }
    if !e.Ready? || NoOneShots(ls) {
      LiveDispatchAgrees(ls, e);
    } else if LiveSafe(ls, e) {
      var p := ls[..|ls| - 1];
      var l := ls[|ls| - 1];
      assert ls == p + [l];
      assert l.OneShot?;
      LiveDispatchOneShotLast(p, l);
    }
  }

  lemma {:induction false} NoReadyCallbacks(ls: seq<Listener>)
    requires NoOneShots(ls)
    ensures ReadyCallbacks(ls) == []
    decreases |ls|
  {
    if |ls| > 0 {
      NoReadyCallbacks(ls[1..]);
    }
  }
}
