/** The publish/subscribe bus: a dictionary from event type to the list of
    handlers subscribed to it, in subscription order. Handlers are opaque
    values compared by equality; what a handler does when called is given to
    `Publish` as parameters: the subscription changes it makes and whether it
    raises. */
module EventBus {

  /** The handlers subscribed to `t`: `subs.get(t, ())`. */
  function HandlersOf<T(!new), H(!new)>(subs: map<T, seq<H>>, t: T): seq<H> {
    if t in subs then subs[t] else []
  }

  /** `list.index(h)`: the position of the first occurrence of `h`. */
  function FirstIndex<H(==)>(s: seq<H>, h: H): (i: nat)
    requires h in s
    ensures i < |s| && s[i] == h && h !in s[..i]
  {
    if s[0] == h then 0
    else
      assert s == [s[0]] + s[1..];
      var j := FirstIndex(s[1..], h);
      assert s[..j + 1] == [s[0]] + s[1..][..j];
      j + 1
  }

  /** `list.remove(h)`: drops the first occurrence, or nothing when `h` is absent. */
  function RemoveFirst<H(==,!new)>(s: seq<H>, h: H): (r: seq<H>)
    ensures h !in s ==> r == s
    ensures h in s ==> |r| == |s| - 1
    ensures h in s ==> r == s[..FirstIndex(s, h)] + s[FirstIndex(s, h) + 1..]
    ensures multiset(r) == multiset(s) - multiset{h}
  {
    if h !in s then s
    else
      var i := FirstIndex(s, h);
      assert s == s[..i] + [h] + s[i + 1..];
      s[..i] + s[i + 1..]
  }

  /** The subscriptions after `subscribe(t, h)`. */
  function AfterSubscribe<T(!new), H(!new)>(subs: map<T, seq<H>>, t: T, h: H): (r: map<T, seq<H>>)
    ensures HandlersOf(r, t) == HandlersOf(subs, t) + [h]
  {
    subs[t := HandlersOf(subs, t) + [h]]
  }

  /** The subscriptions after `unsubscribe(t, h)`: an entry whose list empties is deleted. */
  function AfterUnsubscribe<T(!new), H(==,!new)>(subs: map<T, seq<H>>, t: T, h: H): (r: map<T, seq<H>>)
    ensures HandlersOf(r, t) == RemoveFirst(HandlersOf(subs, t), h)
  {
    var hs := HandlersOf(subs, t);
    if hs == [] then subs
    else
      var rest := RemoveFirst(hs, h);
      if rest == [] then subs - {t} else subs[t := rest]
  }

  /** Subscribing and unsubscribing leave the handlers of every other type alone. */
  lemma OtherTypesUntouched<T(!new), H(!new)>(subs: map<T, seq<H>>, t: T, h: H, u: T)
    requires u != t
    ensures HandlersOf(AfterSubscribe(subs, t, h), u) == HandlersOf(subs, u)
    ensures HandlersOf(AfterUnsubscribe(subs, t, h), u) == HandlersOf(subs, u)
  {
  }

  /** A change a handler makes to the subscriptions while it runs. */
  datatype Change<T, H> = Subscribe(t: T, h: H) | Unsubscribe(t: T, h: H)

  function ApplyChange<T(!new), H(==,!new)>(subs: map<T, seq<H>>, c: Change<T, H>): map<T, seq<H>> {
    match c
    case Subscribe(t, h) => AfterSubscribe(subs, t, h)
    case Unsubscribe(t, h) => AfterUnsubscribe(subs, t, h)
  }

  /** The changes, in order. */
  function ApplyChanges<T(!new), H(==,!new)>(subs: map<T, seq<H>>, cs: seq<Change<T, H>>): map<T, seq<H>>
    decreases |cs|
  {
    if cs == [] then subs else ApplyChange(ApplyChanges(subs, cs[..|cs| - 1]), cs[|cs| - 1])
  }

  /** The changes made by the handlers `hs`, one handler after another. */
  function ChangesOf<T(!new), H(!new)>(hs: seq<H>, react: H -> seq<Change<T, H>>): seq<Change<T, H>>
    decreases |hs|
  {
    if hs == [] then [] else ChangesOf(hs[..|hs| - 1], react) + react(hs[|hs| - 1])
  }

  /** The handlers of `hs` that raise. */
  function Raising<H(!new)>(hs: seq<H>, raises: H -> bool): (r: seq<H>)
    ensures forall x :: x in r <==> x in hs && raises(x)
    decreases |hs|
  {
    if hs == [] then []
    else Raising(hs[..|hs| - 1], raises) + (if raises(hs[|hs| - 1]) then [hs[|hs| - 1]] else [])
  }

  lemma ApplyChangesAppend<T(!new), H(!new)>(subs: map<T, seq<H>>, a: seq<Change<T, H>>, b: seq<Change<T, H>>)
    ensures ApplyChanges(subs, a + b) == ApplyChanges(ApplyChanges(subs, a), b)
    decreases |b|
  {
    if b == [] {
      assert a + b == a;
    } else {
      assert (a + b)[..|a + b| - 1] == a + b[..|b| - 1];
      ApplyChangesAppend(subs, a, b[..|b| - 1]);
    }
  }

  /** No stored list is empty: `unsubscribe` deletes an entry whose list empties. */
  ghost predicate NoEmptyLists<T(!new), H(!new)>(subs: map<T, seq<H>>) {
    forall t :: t in subs ==> subs[t] != []
  }

  lemma SubscribeKeepsLists<T(!new), H(!new)>(subs: map<T, seq<H>>, t: T, h: H)
    requires NoEmptyLists(subs)
    ensures NoEmptyLists(AfterSubscribe(subs, t, h))
  {
    var r := AfterSubscribe(subs, t, h);
    forall u | u in r
      ensures r[u] != []
    {
      if u != t {
        assert r[u] == subs[u];
      }
    }
  }

  lemma UnsubscribeKeepsLists<T(!new), H(!new)>(subs: map<T, seq<H>>, t: T, h: H)
    requires NoEmptyLists(subs)
    ensures NoEmptyLists(AfterUnsubscribe(subs, t, h))
  {
    var r := AfterUnsubscribe(subs, t, h);
    forall u | u in r
      ensures r[u] != []
    {
      if u != t {
        assert u in subs && r[u] == subs[u];
      }
    }
  }

  lemma {:induction false} ApplyChangesKeepsLists<T(!new), H(!new)>(subs: map<T, seq<H>>, cs: seq<Change<T, H>>)
    requires NoEmptyLists(subs)
    ensures NoEmptyLists(ApplyChanges(subs, cs))
    decreases |cs|
  {
    if cs != [] {
      var before := ApplyChanges(subs, cs[..|cs| - 1]);
      ApplyChangesKeepsLists(subs, cs[..|cs| - 1]);
      match cs[|cs| - 1]
      case Subscribe(t, h) => SubscribeKeepsLists(before, t, h);
      case Unsubscribe(t, h) => UnsubscribeKeepsLists(before, t, h);
    }
  }

  class Bus<T(==,!new), H(==,!new)> {
    var subs: map<T, seq<H>>

    ghost predicate Valid()
      reads this
    {
      NoEmptyLists(subs)
    }

    constructor ()
      ensures Valid() && subs == map[]
    {
      subs := map[];
    }

    method Subscribe(t: T, h: H)
      requires Valid()
      modifies this
      ensures Valid() && subs == AfterSubscribe(old(subs), t, h)
    {
      SubscribeKeepsLists(subs, t, h);
      var hs := if t in subs then subs[t] else [];
      subs := subs[t := hs + [h]];
    }

    method Unsubscribe(t: T, h: H)
      requires Valid()
      modifies this
      ensures Valid() && subs == AfterUnsubscribe(old(subs), t, h)
    {
      UnsubscribeKeepsLists(subs, t, h);
      if t !in subs || subs[t] == [] {
        return;
      }
      var hs := RemoveFirst(subs[t], h);
      if hs == [] {
        subs := subs - {t};
      } else {
        subs := subs[t := hs];
      }
    }

    /** `publish`: a snapshot of the handlers of `t` is taken first and every one of them is
        called in order, whatever the earlier ones raise and however they change the
        subscriptions; `react(h)` is what handler `h` does to the subscriptions. */
    method Publish(t: T, react: H -> seq<Change<T, H>>, raises: H -> bool) returns (called: seq<H>, failed: seq<H>)
      requires Valid()
      modifies this
      ensures Valid()
      ensures called == HandlersOf(old(subs), t)
      ensures failed == Raising(called, raises)
      ensures subs == ApplyChanges(old(subs), ChangesOf(called, react))
    {
      var handlers := if t in subs then subs[t] else [];
      called := [];
      failed := [];
      for i := 0 to |handlers|
        invariant Valid()
        invariant called == handlers[..i]
        invariant failed == Raising(called, raises)
        invariant subs == ApplyChanges(old(subs), ChangesOf(called, react))
      {
        var h := handlers[i];
        var cs := react(h);
        ghost var before := subs;
        ApplyAll(cs);
        ApplyChangesAppend(old(subs), ChangesOf(called, react), cs);
        assert handlers[..i + 1] == handlers[..i] + [h];
        assert ChangesOf(handlers[..i + 1], react) == ChangesOf(called, react) + cs;
        called := called + [h];
        if raises(h) {
          failed := failed + [h];
        }
      }
      assert handlers[..|handlers|] == handlers;
    }

    /** The subscription changes one handler makes, through `subscribe` and `unsubscribe`. */
    method ApplyAll(cs: seq<Change<T, H>>)
      requires Valid()
      modifies this
      ensures Valid() && subs == ApplyChanges(old(subs), cs)
    {
      for j := 0 to |cs|
        invariant Valid()
        invariant subs == ApplyChanges(old(subs), cs[..j])
      {
        assert cs[..j + 1][..j] == cs[..j];
        match cs[j]
        case Subscribe(u, g) => Subscribe(u, g);
        case Unsubscribe(u, g) => Unsubscribe(u, g);
      }
      assert cs[..|cs|] == cs;
    }
  }

  // ---------- what the bus promises ----------

  /** Subscribing and then unsubscribing a handler that was not yet subscribed restores the
      subscriptions exactly. */
  lemma SubscribeThenUnsubscribe<T(!new), H(!new)>(subs: map<T, seq<H>>, t: T, h: H)
    requires NoEmptyLists(subs) && h !in HandlersOf(subs, t)
    ensures AfterUnsubscribe(AfterSubscribe(subs, t, h), t, h) == subs
  {
    var hs := HandlersOf(subs, t);
    RemoveAbsentLast(hs, h);
    if t in subs {
      RestoreExisting(subs, t, h);
    } else {
      RestoreMissing(subs, t, h);
    }
  }

  lemma RestoreExisting<T(!new), H(!new)>(subs: map<T, seq<H>>, t: T, h: H)
    requires t in subs && RemoveFirst(subs[t] + [h], h) == subs[t] && subs[t] != []
    ensures AfterUnsubscribe(AfterSubscribe(subs, t, h), t, h) == subs
  {
    var s1 := subs[t := subs[t] + [h]];
    assert AfterSubscribe(subs, t, h) == s1;
    assert AfterUnsubscribe(s1, t, h) == s1[t := subs[t]];
    assert s1[t := subs[t]] == subs;
  }

  lemma RestoreMissing<T(!new), H(!new)>(subs: map<T, seq<H>>, t: T, h: H)
    requires t !in subs
    ensures AfterUnsubscribe(AfterSubscribe(subs, t, h), t, h) == subs
  {
    var s1 := subs[t := [h]];
    assert HandlersOf(subs, t) + [h] == [] + [h] == [h];
    assert AfterSubscribe(subs, t, h) == s1;
    assert RemoveFirst([h], h) == [];
    assert AfterUnsubscribe(s1, t, h) == s1 - {t};
    assert s1 - {t} == subs;
  }

  lemma RemoveAbsentLast<H(!new)>(s: seq<H>, h: H)
    requires h !in s
    ensures RemoveFirst(s + [h], h) == s
  {
    assert (s + [h])[..|s|] == s;
  }

  /** Unsubscribing a handler registered once leaves it out of every later publish of that type. */
  lemma UnsubscribedOnceIsGone<T(!new), H(!new)>(subs: map<T, seq<H>>, t: T, h: H)
    requires multiset(HandlersOf(subs, t))[h] == 1
    ensures h !in HandlersOf(AfterUnsubscribe(subs, t, h), t)
  {
    var r := RemoveFirst(HandlersOf(subs, t), h);
    assert multiset(r)[h] == 0;
  }

  /** Unsubscribing something that is not subscribed changes nothing. */
  lemma UnsubscribeAbsent<T(!new), H(!new)>(subs: map<T, seq<H>>, t: T, h: H)
    requires NoEmptyLists(subs) && h !in HandlersOf(subs, t)
    ensures AfterUnsubscribe(subs, t, h) == subs
  {
  }

  /** Subscribing twice keeps both registrations: the handler is called twice. */
  lemma DuplicatesKept<T(!new), H(!new)>(subs: map<T, seq<H>>, t: T, h: H)
    ensures HandlersOf(AfterSubscribe(AfterSubscribe(subs, t, h), t, h), t) == HandlersOf(subs, t) + [h, h]
  {
  }

  // ---------- the examples of the tests ----------

  /** Subscribe, publish (the handler is called), unsubscribe, publish (it is not). */
  method SubscribePublishUnsubscribe<T(==,!new), H(==,!new)>(t: T, h: H)
  {
    var bus := new Bus<T, H>();
    bus.Subscribe(t, h);
    var called, failed := bus.Publish(t, _ => [], _ => false);
    assert called == [h];
    bus.Unsubscribe(t, h);
    called, failed := bus.Publish(t, _ => [], _ => false);
    assert called == [];
  }

  /** A handler of one type is not called for an event of another. */
  method TypesDoNotInterfere<T(==,!new), H(==,!new)>(closed: T, selected: T, h: H)
    requires closed != selected
  {
    var bus := new Bus<T, H>();
    bus.Subscribe(closed, h);
    var called, failed := bus.Publish(closed, _ => [], _ => false);
    assert called == [h];
    called, failed := bus.Publish(selected, _ => [], _ => false);
    assert called == [];
  }

  /** The changes made by two handlers, one after the other. */
  lemma ChangesOfPair<T(!new), H(!new)>(a: H, b: H, react: H -> seq<Change<T, H>>)
    ensures ChangesOf([a, b], react) == react(a) + react(b)
  {
    assert [a, b][..1] == [a] && [a][..0] == [];
    assert ChangesOf([a], react) == [] + react(a);
    assert [] + react(a) == react(a);
  }

  /** Which of two handlers raise, in order. */
  lemma RaisingPair<H(!new)>(a: H, b: H, raises: H -> bool)
    ensures Raising([a, b], raises) == (if raises(a) then [a] else []) + (if raises(b) then [b] else [])
  {
    assert [a, b][..1] == [a] && [a][..0] == [];
    var x: seq<H> := if raises(a) then [a] else [];
    assert Raising([a], raises) == [] + x;
    assert [] + x == x;
  }

  /** A handler that unsubscribes another during the publish does not prevent that call, and
      one that raises does not stop the next. */
  method SnapshotDelivery<T(==,!new), H(==,!new)>(t: T, first: H, second: H)
    requires first != second
  {
    var bus := new Bus<T, H>();
    bus.Subscribe(t, first);
    bus.Subscribe(t, second);
    ghost var before := bus.subs;
    assert HandlersOf(before, t) == [first, second];
    var react := (x: H) => if x == first then [Unsubscribe(t, second)] else [];
    var raises := (x: H) => x == first;
    var called, failed := bus.Publish(t, react, raises);
    assert called == [first, second];
    RaisingPair(first, second, raises);
    assert failed == [first];
    ChangesOfPair(first, second, react);
    assert ChangesOf(called, react) == [Unsubscribe(t, second)];
    assert [Unsubscribe(t, second)][..0] == [];
    assert bus.subs == AfterUnsubscribe(before, t, second);
    assert RemoveFirst([first, second], second) == [first];
    assert HandlersOf(bus.subs, t) == [first];
  }
}
