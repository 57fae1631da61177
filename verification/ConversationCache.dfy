/**
 The LRU cache of conversation turns of src/notebooklm/_conversation_cache.py.

 `ConversationCache` updates an ordered dictionary in place; `Touched` and `WrittenSince`
 describe a trace of calls without evicting or trimming anything, and `CacheIsLastTouched`
 shows that the dictionary is the end of the one and the ends of the other.
 */
module ConversationCache {
  import opened Options

  type Id = string

  datatype Turn = Turn(query: string, answer: string, number: int)

  /** The ordered dictionary, least recently used key first. */
  datatype Store = Store(order: seq<Id>, turns: map<Id, seq<Turn>>) {
    ghost predicate Valid() {
      && Distinct(order)
      && forall id :: id in order <==> id in turns
    }
  }

  predicate Distinct(s: seq<Id>) {
    forall i, j :: 0 <= i < j < |s| ==> s[i] != s[j]
  }

  function Last<T>(s: seq<T>, n: nat): (r: seq<T>)
    ensures |r| == if |s| <= n then |s| else n
  {
    if |s| <= n then s else s[|s| - n..]
  }

  function Remove(s: seq<Id>, id: Id): (r: seq<Id>)
    ensures forall x :: x in r <==> x in s && x != id
  {
    if s == [] then []
    else
      var last := s[|s| - 1];
      Remove(s[..|s| - 1], id) + (if last == id then [] else [last])
  }

  // ---------- One call ----------

  /** Only the `n` most recently used entries. */
  function Retain(c: Store, n: nat): Store {
    Store(Last(c.order, n), Among(c.turns, Last(c.order, n)))
  }

  function Among(turns: map<Id, seq<Turn>>, ids: seq<Id>): map<Id, seq<Turn>> {
    map id | id in turns && id in ids :: turns[id]
  }

  function AfterRead(c: Store, id: Id): Store {
    if id in c.turns then c.(order := Remove(c.order, id) + [id]) else c
  }

  /** `id` made the most recently used entry, making room for it if it is new. */
  function Entered(c: Store, id: Id, maxSize: nat): (r: Store)
    requires maxSize > 0
    ensures id in r.turns
  {
    if id in c.turns then AfterRead(c, id)
    else
      var kept := Retain(c, maxSize - 1);
      Store(kept.order + [id], kept.turns[id := []])
  }

  function AfterWrite(c: Store, id: Id, turn: Turn, maxSize: int, maxTurns: int): Store {
    if maxSize <= 0 || maxTurns <= 0 then c
    else
      var entered := Entered(c, id, maxSize);
      entered.(turns := entered.turns[id := Last(entered.turns[id] + [turn], maxTurns)])
  }

  /** No id, or the empty one, clears everything. */
  function AfterClear(c: Store, id: Option<Id>): Store {
    if id.Some? && id.value != "" then Store(Remove(c.order, id.value), c.turns - {id.value})
    else Store([], map[])
  }

  class ConversationCache {
    var store: Store

    ghost predicate Valid()
      reads this
    {
      store.Valid()
    }

    constructor (conversations: Store)
      requires conversations.Valid()
      ensures Valid() && store == conversations
    {
      store := conversations;
    }

    method CacheConversationTurn(id: Id, turn: Turn, maxSize: int, maxTurns: int)
      requires Valid()
      modifies this
      ensures Valid() && store == AfterWrite(old(store), id, turn, maxSize, maxTurns)
      ensures maxSize <= 0 || maxTurns <= 0 ==> store == old(store)
    {
      if maxSize <= 0 || maxTurns <= 0 {
        return;
      }
      if id !in store.turns {
        EvictBelow(maxSize);
        DistinctAppend(store.order, id);
        store := Store(store.order + [id], store.turns[id := []]);
      } else {
        MoveToEnd(id);
      }
      var turns := store.turns[id] + [turn];
      if |turns| > maxTurns {
        turns := turns[|turns| - maxTurns..];
      }
      store := store.(turns := store.turns[id := turns]);
    }

    method EvictBelow(maxSize: int)
      requires Valid() && maxSize > 0
      modifies this
      ensures Valid() && store == Retain(old(store), maxSize - 1)
    {
      ghost var was := store;
      while |store.order| >= maxSize
        invariant Valid()
        invariant store == Retain(was, |store.order|)
        invariant |store.order| == |was.order| || |store.order| >= maxSize - 1
      {
        PopFirst();
        RetainLess(was, |store.order| + 1);
      }
    }

    /** `popitem(last=False)` */
    method PopFirst()
      requires Valid() && store.order != []
      modifies this
      ensures Valid() && store == Store(old(store).order[1..], old(store).turns - {old(store).order[0]})
    {
      store := Store(store.order[1..], store.turns - {store.order[0]});
    }

    /** `move_to_end(id)` */
    method MoveToEnd(id: Id)
      requires Valid() && id in store.turns
      modifies this
      ensures Valid() && store == AfterRead(old(store), id)
    {
      RemoveDistinct(store.order, id);
      store := store.(order := Remove(store.order, id) + [id]);
    }

    method GetCachedConversation(id: Id) returns (turns: seq<Turn>)
      requires Valid()
      modifies this
      ensures Valid() && store == AfterRead(old(store), id)
      ensures turns == if id in old(store).turns then old(store).turns[id] else []
    {
      if id in store.turns {
        MoveToEnd(id);
        return store.turns[id];
      }
      return [];
    }

    method Clear(id: Option<Id>) returns (cleared: bool)
      requires Valid()
      modifies this
      ensures Valid() && store == AfterClear(old(store), id)
      ensures cleared <==> (id.Some? && id.value != "" ==> id.value in old(store).turns)
    {
      if id.Some? && id.value != "" {
        cleared := id.value in store.turns;
        RemoveDistinct(store.order, id.value);
        RemoveAbsent(store.order, id.value);
        store := Store(Remove(store.order, id.value), store.turns - {id.value});
      } else {
        store := Store([], map[]);
        cleared := true;
      }
    }
  }

  lemma {:induction false} RemoveAbsent(s: seq<Id>, id: Id)
    ensures id !in s ==> Remove(s, id) == s
  {
    if s != [] {
      RemoveAbsent(s[..|s| - 1], id);
    }
  }

  lemma {:induction false} RetainLess(c: Store, n: nat)
    requires c.Valid() && 0 < n <= |c.order|
    ensures var more := Retain(c, n);
            Retain(c, n - 1) == Store(more.order[1..], more.turns - {more.order[0]})
  {
    var more := Last(c.order, n);
    LastLess(c.order, n, more);
    LastDistinct(c.order, n);
    AmongRest(c.turns, more);
  }

  lemma {:induction false} AmongRest(turns: map<Id, seq<Turn>>, ids: seq<Id>)
    requires Distinct(ids) && ids != []
    ensures Among(turns, ids[1..]) == Among(turns, ids) - {ids[0]}
  {
    assert ids == [ids[0]] + ids[1..];
  }

  lemma {:induction false} LastLess(s: seq<Id>, n: nat, more: seq<Id>)
    requires 0 < n <= |s| && more == Last(s, n)
    ensures more[1..] == Last(s, n - 1)
  {
  }

  lemma {:induction false} LastDistinct(s: seq<Id>, n: nat)
    requires Distinct(s)
    ensures Distinct(Last(s, n))
  {
  }

  lemma {:induction false} DistinctAppend(s: seq<Id>, id: Id)
    requires Distinct(s) && id !in s
    ensures Distinct(s + [id])
  {
  }

  lemma {:induction false} RemoveDistinct(s: seq<Id>, id: Id)
    requires Distinct(s)
    ensures Distinct(Remove(s, id)) && Distinct(Remove(s, id) + [id])
  {
    if s != [] {
      var last := s[|s| - 1];
      assert last !in s[..|s| - 1];
      RemoveDistinct(s[..|s| - 1], id);
      if last != id {
        DistinctAppend(Remove(s[..|s| - 1], id), last);
      }
    }
    DistinctAppend(Remove(s, id), id);
  }

  lemma {:induction false} RemoveConcat(s: seq<Id>, t: seq<Id>, id: Id)
    ensures Remove(s + t, id) == Remove(s, id) + Remove(t, id)
  {
    if t == [] {
      assert s + t == s;
    } else {
      assert (s + t)[..|s + t| - 1] == s + t[..|t| - 1];
      RemoveConcat(s, t[..|t| - 1], id);
    }
  }

  // ---------- A trace of calls ----------

  datatype Op = Written(id: Id, turn: Turn) | Got(id: Id) | Cleared(which: Option<Id>)

  /** The calls, on a cache that was given `initial`. */
  function Execute(initial: Store, ops: seq<Op>, maxSize: nat, maxTurns: nat): Store {
    if ops == [] then initial
    else
      var before := Execute(initial, ops[..|ops| - 1], maxSize, maxTurns);
      match ops[|ops| - 1]
      case Written(id, turn) => AfterWrite(before, id, turn, maxSize, maxTurns)
      case Got(id) => AfterRead(before, id)
      case Cleared(which) => AfterClear(before, which)
  }

  /** How many may be resident: what was given, even if too many, until a new conversation is written. */
  function Room(initial: Store, ops: seq<Op>, maxSize: nat): (room: nat)
    ensures room >= maxSize
    decreases ops, 0
  {
    if ops == [] then if |initial.order| > maxSize then |initial.order| else maxSize
    else
      var earlier, op := ops[..|ops| - 1], ops[|ops| - 1];
      if op.Written? && op.id !in Residents(initial, earlier, maxSize) then maxSize
      else Room(initial, earlier, maxSize)
  }

  /** Every conversation given or ever touched, each at its last touch, oldest first; nothing is evicted.
      A read touches only what is resident, and clearing forgets what is no longer resident. */
  function Touched(initial: Store, ops: seq<Op>, maxSize: nat): seq<Id>
    decreases ops, 0
  {
    if ops == [] then initial.order
    else
      var earlier := ops[..|ops| - 1];
      var before := Touched(initial, earlier, maxSize);
      match ops[|ops| - 1]
      case Written(id, _) => Remove(before, id) + [id]
      case Got(id) => if id in Residents(initial, earlier, maxSize) then Remove(before, id) + [id] else before
      case Cleared(which) =>
        if which.Some? && which.value != "" then Remove(Residents(initial, earlier, maxSize), which.value) else []
  }

  function Residents(initial: Store, ops: seq<Op>, maxSize: nat): seq<Id>
    decreases ops, 1
  {
    Last(Touched(initial, ops, maxSize), Room(initial, ops, maxSize))
  }

  /** Every turn given for `id`, or written to it since it was last inserted. */
  function WrittenSince(initial: Store, ops: seq<Op>, maxSize: nat, id: Id): seq<Turn> {
    if ops == [] then if id in initial.turns then initial.turns[id] else []
    else
      var earlier := ops[..|ops| - 1];
      var before := WrittenSince(initial, earlier, maxSize, id);
      match ops[|ops| - 1]
      case Written(i, turn) =>
        if i != id then before
        else if id in Residents(initial, earlier, maxSize) then before + [turn]
        else [turn]
      case _ => before
  }

  /** What was given is trimmed at the first write to it. */
  predicate WroteTo(ops: seq<Op>, id: Id) {
    exists i :: 0 <= i < |ops| && ops[i].Written? && ops[i].id == id
  }

  lemma {:induction false} TouchedDistinct(initial: Store, ops: seq<Op>, maxSize: nat)
    requires initial.Valid()
    ensures Distinct(Touched(initial, ops, maxSize))
  {
    if ops != [] {
      var earlier := ops[..|ops| - 1];
      var before := Touched(initial, earlier, maxSize);
      TouchedDistinct(initial, earlier, maxSize);
      match ops[|ops| - 1]
      case Written(id, _) => RemoveDistinct(before, id);
      case Got(id) => RemoveDistinct(before, id);
      case Cleared(which) =>
        if which.Some? {
          LastDistinct(before, Room(initial, earlier, maxSize));
          RemoveDistinct(Residents(initial, earlier, maxSize), which.value);
        }
    }
  }

  lemma {:induction false} LastSuffix(head: seq<Id>, tail: seq<Id>, n: nat)
    requires |tail| == n || (|tail| < n && head == [])
    ensures Last(head + tail, n) == tail
  {
  }

  lemma {:induction false} SplitLast(s: seq<Id>, n: nat) returns (head: seq<Id>, tail: seq<Id>)
    ensures tail == Last(s, n) && s == head + tail
    ensures |tail| == n || (|tail| < n && head == [])
    ensures Distinct(s) ==> forall id :: id in tail ==> id !in head
  {
    head, tail := s[..|s| - |Last(s, n)|], Last(s, n);
  }

  lemma {:induction false} RemoveFromTail(head: seq<Id>, tail: seq<Id>, id: Id)
    requires id !in head
    ensures Remove(head + tail, id) + [id] == head + (Remove(tail, id) + [id])
  {
    RemoveAbsent(head, id);
    RemoveConcat(head, tail, id);
  }

  /** Touching something resident shuffles only the resident end of the list. */
  lemma {:induction false} TouchResident(s: seq<Id>, n: nat, id: Id)
    requires Distinct(s) && id in Last(s, n)
    ensures Last(Remove(s, id) + [id], n) == Remove(Last(s, n), id) + [id]
  {
    var head, tail := SplitLast(s, n);
    RemoveFromTail(head, tail, id);
    TailDistinct(head, tail);
    RemoveOnce(tail, id);
    LastSuffix(head, Remove(tail, id) + [id], n);
  }

  lemma {:induction false} TailDistinct(head: seq<Id>, tail: seq<Id>)
    requires Distinct(head + tail)
    ensures Distinct(tail)
  {
    forall i, j | 0 <= i < j < |tail| ensures tail[i] != tail[j] {
      assert (head + tail)[|head| + i] == tail[i] && (head + tail)[|head| + j] == tail[j];
    }
  }

  lemma {:induction false} RemoveOnce(s: seq<Id>, id: Id)
    requires Distinct(s) && id in s
    ensures |Remove(s, id)| == |s| - 1
  {
    var last := s[|s| - 1];
    assert last !in s[..|s| - 1];
    if last == id {
      RemoveAbsent(s[..|s| - 1], id);
    } else {
      RemoveOnce(s[..|s| - 1], id);
    }
  }

  lemma {:induction false} Regroup(a: seq<Id>, b: seq<Id>, c: seq<Id>, d: seq<Id>)
    ensures (a + (b + c)) + d == (a + b) + (c + d)
  {
  }

  /** Touching something else evicts the oldest resident, if there is no room. */
  lemma {:induction false} TouchAbsent(s: seq<Id>, n: nat, id: Id)
    requires n > 0 && id !in Last(s, n)
    ensures Last(Remove(s, id) + [id], n) == Last(Last(s, n), n - 1) + [id]
  {
    var head, tail := SplitLast(s, n);
    RemoveConcat(head, tail, id);
    RemoveAbsent(tail, id);
    var dropped, kept := SplitLast(tail, n - 1);
    var rest := Remove(head, id);
    Regroup(rest, dropped, kept, [id]);
    LastSuffix(rest + dropped, kept + [id], n);
  }

  lemma {:induction false} LastNested(s: seq<Id>, n: nat, m: nat)
    requires n <= m
    ensures Last(Last(s, m), n) == Last(s, n)
    ensures forall id :: id in Last(s, n) ==> id in Last(s, m)
  {
    assert forall i :: 0 <= i < |Last(s, n)| ==> Last(s, n)[i] == Last(s, m)[|Last(s, m)| - |Last(s, n)| + i];
  }

  /** What ties the dictionary to the trace: its order is the end of the touched list, and it holds the
      newest turns of each of its conversations. */
  ghost predicate Mirrors(c: Store, initial: Store, ops: seq<Op>, maxSize: nat, maxTurns: nat) {
    && c.Valid()
    && c.order == Residents(initial, ops, maxSize)
    && forall id :: HoldsNewest(c, initial, ops, maxSize, maxTurns, id)
  }

  predicate HoldsNewest(c: Store, initial: Store, ops: seq<Op>, maxSize: nat, maxTurns: nat, id: Id) {
    id in c.turns ==>
      c.turns[id] == if WroteTo(ops, id) then Last(WrittenSince(initial, ops, maxSize, id), maxTurns)
                     else WrittenSince(initial, ops, maxSize, id)
  }

  lemma {:induction false} LastOfLast<T>(s: seq<T>, t: T, n: nat)
    requires n > 0
    ensures Last(Last(s, n) + [t], n) == Last(s + [t], n)
  {
  }

  lemma {:induction false} WroteMore(earlier: seq<Op>, op: Op, id: Id)
    ensures WroteTo(earlier + [op], id) <==> WroteTo(earlier, id) || (op.Written? && op.id == id)
  {
    var ops := earlier + [op];
    assert ops[|earlier|] == op;
    assert forall i :: 0 <= i < |earlier| ==> ops[i] == earlier[i];
  }

  lemma {:induction false} WriteKeepsOrder(c: Store, touched: seq<Id>, id: Id, maxSize: nat, room: nat)
    requires 0 < maxSize <= room && c.Valid() && Distinct(touched) && c.order == Last(touched, room)
    ensures Entered(c, id, maxSize).Valid()
    ensures Entered(c, id, maxSize).order == Last(Remove(touched, id) + [id], if id in c.turns then room else maxSize)
  {
    if id in c.turns {
      TouchResident(touched, room, id);
      RemoveDistinct(c.order, id);
    } else {
      LastNested(touched, maxSize, room);
      LastNested(touched, maxSize - 1, room);
      LastNested(touched, maxSize - 1, maxSize);
      TouchAbsent(touched, maxSize, id);
      LastDistinct(c.order, maxSize - 1);
      DistinctAppend(Last(c.order, maxSize - 1), id);
    }
  }

  // The goal is stated as `== true`, so that the verifier proves it as one fact and does not
  // first take the sequences in it apart.
  lemma {:induction false} WriteKeepsNewest(
    before: Store, initial: Store, earlier: seq<Op>, ops: seq<Op>, maxSize: nat, maxTurns: nat, id: Id, turn: Turn,
    other: Id)
    requires maxSize > 0 && maxTurns > 0 && ops == earlier + [Written(id, turn)]
    requires before.Valid() && before.order == Residents(initial, earlier, maxSize)
    requires HoldsNewest(before, initial, earlier, maxSize, maxTurns, other)
    ensures HoldsNewest(AfterWrite(before, id, turn, maxSize, maxTurns), initial, ops, maxSize, maxTurns, other) == true
  {
    assert ops[..|ops| - 1] == earlier;
    WroteMore(earlier, Written(id, turn), other);
    if other == id {
      LastOfLast(WrittenSince(initial, earlier, maxSize, id), turn, maxTurns);
    }
  }

  lemma {:induction false} WriteIsOrdered(
    before: Store, initial: Store, earlier: seq<Op>, ops: seq<Op>, maxSize: nat, maxTurns: nat, id: Id, turn: Turn)
    requires maxSize > 0 && maxTurns > 0 && ops == earlier + [Written(id, turn)] && initial.Valid()
    requires before.Valid() && before.order == Residents(initial, earlier, maxSize)
    ensures AfterWrite(before, id, turn, maxSize, maxTurns).Valid()
    ensures AfterWrite(before, id, turn, maxSize, maxTurns).order == Residents(initial, ops, maxSize)
  {
    assert ops[..|ops| - 1] == earlier;
    TouchedDistinct(initial, earlier, maxSize);
    WriteKeepsOrder(before, Touched(initial, earlier, maxSize), id, maxSize, Room(initial, earlier, maxSize));
  }

  lemma {:induction false} WriteMirrors(
    before: Store, initial: Store, earlier: seq<Op>, ops: seq<Op>, maxSize: nat, maxTurns: nat, id: Id, turn: Turn)
    requires maxSize > 0 && maxTurns > 0 && ops == earlier + [Written(id, turn)] && initial.Valid()
    requires Mirrors(before, initial, earlier, maxSize, maxTurns)
    ensures Mirrors(AfterWrite(before, id, turn, maxSize, maxTurns), initial, ops, maxSize, maxTurns) == true
  {
    WriteIsOrdered(before, initial, earlier, ops, maxSize, maxTurns, id, turn);
    forall other
      ensures HoldsNewest(AfterWrite(before, id, turn, maxSize, maxTurns), initial, ops, maxSize, maxTurns, other)
           == true
    {
      WriteKeepsNewest(before, initial, earlier, ops, maxSize, maxTurns, id, turn, other);
    }
  }

  lemma {:induction false} ReadIsOrdered(
    before: Store, initial: Store, earlier: seq<Op>, ops: seq<Op>, maxSize: nat, id: Id)
    requires maxSize > 0 && ops == earlier + [Got(id)] && initial.Valid()
    requires before.Valid() && before.order == Residents(initial, earlier, maxSize)
    ensures AfterRead(before, id).Valid() && AfterRead(before, id).order == Residents(initial, ops, maxSize)
  {
    assert ops[..|ops| - 1] == earlier;
    TouchedDistinct(initial, earlier, maxSize);
    if id in before.turns {
      TouchResident(Touched(initial, earlier, maxSize), Room(initial, earlier, maxSize), id);
      RemoveDistinct(before.order, id);
    }
  }

  lemma {:induction false} ReadKeepsNewest(
    before: Store, initial: Store, earlier: seq<Op>, ops: seq<Op>, maxSize: nat, maxTurns: nat, id: Id, other: Id)
    requires ops == earlier + [Got(id)]
    requires HoldsNewest(before, initial, earlier, maxSize, maxTurns, other)
    ensures HoldsNewest(AfterRead(before, id), initial, ops, maxSize, maxTurns, other) == true
  {
    assert ops[..|ops| - 1] == earlier;
    WroteMore(earlier, Got(id), other);
  }

  lemma {:induction false} ReadMirrors(
    before: Store, initial: Store, earlier: seq<Op>, ops: seq<Op>, maxSize: nat, maxTurns: nat, id: Id)
    requires maxSize > 0 && ops == earlier + [Got(id)] && initial.Valid()
    requires Mirrors(before, initial, earlier, maxSize, maxTurns)
    ensures Mirrors(AfterRead(before, id), initial, ops, maxSize, maxTurns) == true
  {
    ReadIsOrdered(before, initial, earlier, ops, maxSize, id);
    forall other ensures HoldsNewest(AfterRead(before, id), initial, ops, maxSize, maxTurns, other) == true {
      ReadKeepsNewest(before, initial, earlier, ops, maxSize, maxTurns, id, other);
    }
  }

  lemma {:induction false} ClearKeepsValid(before: Store, which: Option<Id>)
    requires before.Valid()
    ensures AfterClear(before, which).Valid()
  {
    if which.Some? {
      RemoveDistinct(before.order, which.value);
    }
  }

  lemma {:induction false} LastOfFewer(s: seq<Id>, id: Id, n: nat)
    ensures Last(Remove(Last(s, n), id), n) == Remove(Last(s, n), id)
  {
    RemoveShortens(Last(s, n), id);
  }

  lemma {:induction false} ClearKeepsOrder(
    before: Store, initial: Store, earlier: seq<Op>, ops: seq<Op>, maxSize: nat, which: Option<Id>)
    requires ops == earlier + [Cleared(which)] && before.order == Residents(initial, earlier, maxSize)
    ensures AfterClear(before, which).order == Residents(initial, ops, maxSize)
  {
    assert ops[..|ops| - 1] == earlier;
    if which.Some? {
      LastOfFewer(Touched(initial, earlier, maxSize), which.value, Room(initial, earlier, maxSize));
    }
  }

  lemma {:induction false} ClearKeepsNewest(
    before: Store, initial: Store, earlier: seq<Op>, ops: seq<Op>, maxSize: nat, maxTurns: nat, which: Option<Id>,
    other: Id)
    requires ops == earlier + [Cleared(which)]
    requires HoldsNewest(before, initial, earlier, maxSize, maxTurns, other)
    ensures HoldsNewest(AfterClear(before, which), initial, ops, maxSize, maxTurns, other) == true
  {
    assert ops[..|ops| - 1] == earlier;
    WroteMore(earlier, Cleared(which), other);
  }

  lemma {:induction false} ClearMirrors(
    before: Store, initial: Store, earlier: seq<Op>, ops: seq<Op>, maxSize: nat, maxTurns: nat, which: Option<Id>)
    requires ops == earlier + [Cleared(which)]
    requires Mirrors(before, initial, earlier, maxSize, maxTurns)
    ensures Mirrors(AfterClear(before, which), initial, ops, maxSize, maxTurns) == true
  {
    ClearKeepsValid(before, which);
    ClearKeepsOrder(before, initial, earlier, ops, maxSize, which);
    forall other ensures HoldsNewest(AfterClear(before, which), initial, ops, maxSize, maxTurns, other) == true {
      ClearKeepsNewest(before, initial, earlier, ops, maxSize, maxTurns, which, other);
    }
  }

  lemma {:induction false} RemoveShortens(s: seq<Id>, id: Id)
    ensures |Remove(s, id)| <= |s|
  {
    if s != [] {
      RemoveShortens(s[..|s| - 1], id);
    }
  }

  lemma {:induction false} StartMirrors(initial: Store, none: seq<Op>, maxSize: nat, maxTurns: nat)
    requires initial.Valid() && none == []
    ensures Mirrors(Execute(initial, none, maxSize, maxTurns), initial, none, maxSize, maxTurns) == true
  {
    assert initial.order == Residents(initial, none, maxSize);
    forall id ensures HoldsNewest(initial, initial, none, maxSize, maxTurns, id) == true {
      assert !WroteTo(none, id);
    }
  }

  /** Over any trace with fixed caps, from any store, the dictionary is in order the end of the touched
      list, and each resident conversation holds exactly its newest `maxTurns` turns, or what was given
      for it if nothing was written to it. */
  lemma {:induction false} CacheIsLastTouched(initial: Store, ops: seq<Op>, maxSize: nat, maxTurns: nat)
    requires maxSize > 0 && maxTurns > 0 && initial.Valid()
    ensures Mirrors(Execute(initial, ops, maxSize, maxTurns), initial, ops, maxSize, maxTurns) == true
  {
    if ops == [] {
      StartMirrors(initial, ops, maxSize, maxTurns);
    } else {
      var earlier, op := ops[..|ops| - 1], ops[|ops| - 1];
      var before := Execute(initial, earlier, maxSize, maxTurns);
      assert ops == earlier + [op];
      CacheIsLastTouched(initial, earlier, maxSize, maxTurns);
      match op
      case Written(id, turn) => WriteMirrors(before, initial, earlier, ops, maxSize, maxTurns, id, turn);
      case Got(id) => ReadMirrors(before, initial, earlier, ops, maxSize, maxTurns, id);
      case Cleared(which) => ClearMirrors(before, initial, earlier, ops, maxSize, maxTurns, which);
    }
  }

  /** So the size cap holds throughout if it held at the start. */
  lemma {:induction false} CapHolds(initial: Store, ops: seq<Op>, maxSize: nat, maxTurns: nat)
    requires maxSize > 0 && maxTurns > 0 && initial.Valid() && |initial.order| <= maxSize
    ensures |Execute(initial, ops, maxSize, maxTurns).order| <= maxSize
  {
    CacheIsLastTouched(initial, ops, maxSize, maxTurns);
    RoomIsCap(initial, ops, maxSize);
  }

  lemma {:induction false} RoomIsCap(initial: Store, ops: seq<Op>, maxSize: nat)
    requires |initial.order| <= maxSize
    ensures Room(initial, ops, maxSize) == maxSize
  {
    if ops != [] {
      RoomIsCap(initial, ops[..|ops| - 1], maxSize);
    }
  }
}
