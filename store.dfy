/** The per-namespace listener store shared by the three emitter revisions
    (`getAllListeners` / `getListeners` in each of them): a target maps to a
    JavaScript `Map` from event name to an array. The two reserved names
    `Parents` and `Children` reuse the same arrays for the hierarchy edges. */
module Store {
  import opened Seqs

  /** An optional value: an option left out by the caller, or a private
      slot that was never written. */
  datatype Option<T> = None | Some(value: T)
  {
    /** The value, or the default a destructuring or a `$private.get` falls back to. */
    function GetOr(default: T): T
    {
      if Some? then value else default
    }
  }

  /** The identity of a JavaScript object: a target, a listener function or a
      hierarchy neighbour (all compared by reference). */
  type Ref = nat

  /** A namespace key: the default namespace symbol or a caller-chosen key. */
  datatype Namespace = DefaultNamespace | NamespaceKey(key: string)

  /** An event name: a string, a caller's symbol, or one of the reserved symbols
      (the two edge pseudo-names and the six meta-event names). */
  datatype Name =
    | Str(s: string)
    | Symbol(id: nat)
    | Parents
    | Children
    | NewListenerEvent
    | RemoveListenerEvent
    | AddParentEvent
    | RemoveParentEvent
    | AddChildEvent
    | RemoveChildEvent

  /** JavaScript truthiness of an event name: only the empty string is falsy. */
  predicate Truthy(n: Name)
  {
    !(n.Str? && n.s == "")
  }

  /** The name whose silent emission can raise an error. */
  const ErrorName: Name := Str("error")

  /** One target's `Map`: keys in insertion order and the array under each key. */
  datatype Table = Table(order: seq<Name>, lists: map<Name, seq<Ref>>)
  {
    ghost predicate Valid()
    {
      && Distinct(order)
      && (forall n :: n in lists <==> n in order)
    }
  }

  /** The namespace's store: target identity to that target's table. */
  type Store = map<Ref, Table>

  /** Every table of the store keeps its keys and its arrays in step. */
  ghost predicate Consistent(s: Store)
  {
    forall t :: t in s ==> s[t].Valid()
  }

  /** The array stored under (t, n), or the empty array that a lookup would create. */
  function List(s: Store, t: Ref, n: Name): seq<Ref>
  {
    if t in s && n in s[t].lists then s[t].lists[n] else []
  }

  /** `[...allListeners.keys()]`: the target's event names in insertion order. */
  function EventNames(s: Store, t: Ref): seq<Name>
  {
    if t in s then s[t].order else []
  }

  /** Every array of the target, in key order (`[...allListeners.values()]`). */
  function AllLists(s: Store, t: Ref): (r: seq<seq<Ref>>)
    ensures |r| == |EventNames(s, t)|
    ensures forall i :: 0 <= i < |r| ==> r[i] == List(s, t, EventNames(s, t)[i])
  {
    if t !in s then []
    else seq(|s[t].order|, i requires 0 <= i < |s[t].order| => List(s, t, s[t].order[i]))
  }

  /** Two stores hold the same array under every (target, name). */
  ghost predicate SameLists(s: Store, s': Store)
  {
    forall t, n :: List(s, t, n) == List(s', t, n)
  }

  /** Keys are only ever added, at the end, never removed or reordered. */
  ghost predicate Grows(s: Store, s': Store)
  {
    forall t :: EventNames(s, t) <= EventNames(s', t)
  }

  lemma SameListsTransitive(s1: Store, s2: Store, s3: Store)
    requires SameLists(s1, s2) && SameLists(s2, s3)
    ensures SameLists(s1, s3)
  {
  }

  lemma GrowsTransitive(s1: Store, s2: Store, s3: Store)
    requires Grows(s1, s2) && Grows(s2, s3)
    ensures Grows(s1, s3)
  {
    forall t ensures EventNames(s1, t) <= EventNames(s3, t) {
      assert EventNames(s1, t) <= EventNames(s2, t);
    }
  }

  /** The auto-creation done by `getListeners`: an unseen (t, n) gets an empty
      array, appended at the end of the target's keys; nothing else changes. */
  function Touch(s: Store, t: Ref, n: Name): (s': Store)
    requires Consistent(s)
    ensures Consistent(s') && SameLists(s, s') && Grows(s, s')
    ensures n in EventNames(s', t)
    ensures EventNames(s', t) == if n in EventNames(s, t) then EventNames(s, t) else EventNames(s, t) + [n]
    ensures forall u :: u != t ==> EventNames(s', u) == EventNames(s, u)
  {
    var tab := if t in s then s[t] else Table([], map[]);
    if n in tab.lists then s
    else
      var s' := s[t := Table(tab.order + [n], tab.lists[n := []])];
      assert forall u, m :: List(s, u, m) == List(s', u, m);
      s'
  }

  /** A lookup of a key that exists creates nothing. */
  lemma TouchPresent(s: Store, t: Ref, n: Name)
    requires Consistent(s) && n in EventNames(s, t)
    ensures Touch(s, t, n) == s
  {
  }

  /** Replace the array under (t, n), a key that already exists. */
  function SetList(s: Store, t: Ref, n: Name, l: seq<Ref>): (s': Store)
    requires Consistent(s) && n in EventNames(s, t)
    ensures Consistent(s')
    ensures forall u :: EventNames(s', u) == EventNames(s, u)
    ensures List(s', t, n) == l
    ensures forall u: Ref, m: Name :: (u, m) != (t, n) ==> List(s', u, m) == List(s, u, m)
  {
    s[t := s[t].(lists := s[t].lists[n := l])]
  }

  /** `getListeners(t, n).push(...xs)`. */
  function Push(s: Store, t: Ref, n: Name, xs: seq<Ref>): (s': Store)
    requires Consistent(s)
    ensures Consistent(s') && Grows(s, s')
    ensures EventNames(s', t) == EventNames(Touch(s, t, n), t)
    ensures forall u :: u != t ==> EventNames(s', u) == EventNames(s, u)
    ensures List(s', t, n) == List(s, t, n) + xs
    ensures forall u: Ref, m: Name :: (u, m) != (t, n) ==> List(s', u, m) == List(s, u, m)
  {
    var s1 := Touch(s, t, n);
    SetList(s1, t, n, List(s1, t, n) + xs)
  }

  /** `getListeners(t, n).unshift(...xs)`. */
  function Unshift(s: Store, t: Ref, n: Name, xs: seq<Ref>): (s': Store)
    requires Consistent(s)
    ensures Consistent(s') && Grows(s, s')
    ensures EventNames(s', t) == EventNames(Touch(s, t, n), t)
    ensures forall u :: u != t ==> EventNames(s', u) == EventNames(s, u)
    ensures List(s', t, n) == xs + List(s, t, n)
    ensures forall u: Ref, m: Name :: (u, m) != (t, n) ==> List(s', u, m) == List(s, u, m)
  {
    var s1 := Touch(s, t, n);
    SetList(s1, t, n, xs + List(s1, t, n))
  }

  /** `pull(getListeners(t, n), ...xs)`. */
  function PullFrom(s: Store, t: Ref, n: Name, xs: seq<Ref>): (s': Store)
    requires Consistent(s)
    ensures Consistent(s') && Grows(s, s')
    ensures EventNames(s', t) == EventNames(Touch(s, t, n), t)
    ensures forall u :: u != t ==> EventNames(s', u) == EventNames(s, u)
    ensures List(s', t, n) == Pull(List(s, t, n), xs)
    ensures forall u: Ref, m: Name :: (u, m) != (t, n) ==> List(s', u, m) == List(s, u, m)
  {
    var s1 := Touch(s, t, n);
    SetList(s1, t, n, Pull(List(s1, t, n), xs))
  }

  /** `getAllListeners(t).forEach(l => l.length = 0)`: every array of the
      target, edge arrays included, is emptied; its keys stay. */
  function TruncateAll(s: Store, t: Ref): (s': Store)
    requires Consistent(s)
    ensures Consistent(s')
    ensures forall u :: EventNames(s', u) == EventNames(s, u)
    ensures forall n :: List(s', t, n) == []
    ensures forall u, m :: u != t ==> List(s', u, m) == List(s, u, m)
  {
    if t !in s then s
    else s[t := s[t].(lists := map n | n in s[t].lists :: [])]
  }
}
