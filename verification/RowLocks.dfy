/**
  `src/common/util/row-lock.util.ts`: the total lock order, the functions that take several locks
  in it, and why transactions that keep to it never wait for each other in a circle.
 */
module RowLocks {
  import opened Prelude

  type Id = nat

  /**
    Every table that is row-locked, in the order every transaction locks them. The comment of the source
    puts `file_assets` last, after `refresh_tokens`; but erasure, the one transaction that writes both,
    writes files first, so the order that is kept is this one.
   */
  datatype Table = Users | Workspaces | Invitations | Memberships | FileAssets | RefreshTokens
  {
    function Rank(): nat {
      match this
      case Users => 0
      case Workspaces => 1
      case Invitations => 2
      case Memberships => 3
      case FileAssets => 4
      case RefreshTokens => 5
    }
  }

  datatype Key = Key(table: Table, id: Id)

  /** Tables in order, ascending by id within each. */
  predicate Before(a: Key, b: Key) {
    a.table.Rank() < b.table.Rank() || (a.table == b.table && a.id < b.id)
  }

  /** The order as the source's comment has it. */
  predicate BeforeAsDocumented(a: Key, b: Key) {
    if a.table.FileAssets? && b.table.RefreshTokens? then false
    else (a.table.RefreshTokens? && b.table.FileAssets?) || Before(a, b)
  }

  lemma BeforeIsTotal(a: Key, b: Key)
    ensures a == b || Before(a, b) || Before(b, a)
    ensures !(Before(a, b) && Before(b, a))
  {
  }

  // ---------------------------------------------------------------- sortedUnique

  predicate Ascending(ids: seq<Id>) {
    forall i, j :: 0 <= i < j < |ids| ==> ids[i] < ids[j]
  }

  function Elements(ids: seq<Id>): set<Id> {
    set id <- ids
  }

  lemma ElementsOfCons(id: Id, ids: seq<Id>)
    ensures Elements([id] + ids) == {id} + Elements(ids)
  {
    assert forall x <- ids :: x in [id] + ids;
  }

  lemma ElementsSplit(ids: seq<Id>)
    requires ids != []
    ensures Elements(ids) == {ids[0]} + Elements(ids[1..])
  {
    assert ids == [ids[0]] + ids[1..];
    ElementsOfCons(ids[0], ids[1..]);
  }

  lemma NoElements(ids: seq<Id>)
    ensures Elements(ids) == {} <==> ids == []
  {
    if ids != [] { assert ids[0] in Elements(ids); }
  }

  lemma TailIsAbove(sorted: seq<Id>)
    requires sorted != [] && Ascending(sorted)
    ensures forall id <- Elements(sorted[1..]) :: sorted[0] < id
  {
  }

  lemma PrependKeepsAscending(id: Id, sorted: seq<Id>)
    requires Ascending(sorted) && forall other <- Elements(sorted) :: id < other
    ensures Ascending([id] + sorted)
  {
    assert forall i :: 0 <= i < |sorted| ==> sorted[i] in Elements(sorted);
  }

  function Insert(id: Id, sorted: seq<Id>): seq<Id> {
    if sorted == [] || id < sorted[0] then [id] + sorted
    else if id == sorted[0] then sorted
    else [sorted[0]] + Insert(id, sorted[1..])
  }

  lemma {:induction false} InsertIsSound(id: Id, sorted: seq<Id>)
    requires Ascending(sorted)
    ensures Ascending(Insert(id, sorted)) && Elements(Insert(id, sorted)) == {id} + Elements(sorted)
  {
    if sorted == [] || id < sorted[0] {
      ElementsOfCons(id, sorted);
      if sorted != [] {
        ElementsSplit(sorted);
        TailIsAbove(sorted);
      }
      PrependKeepsAscending(id, sorted);
    } else {
      ElementsSplit(sorted);
      if id != sorted[0] {
        InsertIsSound(id, sorted[1..]);
        TailIsAbove(sorted);
        PrependKeepsAscending(sorted[0], Insert(id, sorted[1..]));
        ElementsOfCons(sorted[0], Insert(id, sorted[1..]));
      }
    }
  }

  /** `[...new Set(ids)].sort()`. */
  function SortedUnique(ids: seq<Id>): (sorted: seq<Id>)
    ensures Ascending(sorted) && Elements(sorted) == Elements(ids)
  {
    if ids == [] then []
    else
      var rest := SortedUnique(ids[1..]);
      ElementsSplit(ids);
      InsertIsSound(ids[0], rest);
      Insert(ids[0], rest)
  }

  /** Ascending lists with the same elements are the same list, so the order of the input is irrelevant. */
  lemma {:induction false} AscendingIsCanonical(a: seq<Id>, b: seq<Id>)
    requires Ascending(a) && Ascending(b) && Elements(a) == Elements(b)
    ensures a == b
  {
    if a == [] {
      NoElements(b);
    } else {
      assert a[0] in Elements(b);
      assert b[0] in Elements(a);
      assert a[0] == b[0];
      ElementsSplit(a);
      ElementsSplit(b);
      assert a[0] !in a[1..] && b[0] !in b[1..];
      AscendingIsCanonical(a[1..], b[1..]);
      assert a == [a[0]] + a[1..] && b == [b[0]] + b[1..];
    }
  }

  lemma SortedUniqueIgnoresOrderAndRepeats(a: seq<Id>, b: seq<Id>)
    requires Elements(a) == Elements(b)
    ensures SortedUnique(a) == SortedUnique(b)
  {
    AscendingIsCanonical(SortedUnique(a), SortedUnique(b));
  }

  // ---------------------------------------------------------------- taking locks

  function Keys(table: Table, ids: seq<Id>): seq<Key> {
    seq(|ids|, i requires 0 <= i < |ids| => Key(table, ids[i]))
  }

  predicate Ordered(keys: seq<Key>) {
    forall i, j :: 0 <= i < j < |keys| ==> Before(keys[i], keys[j])
  }

  /** The locks held are in order, and every row named comes after them all. */
  predicate IsAbove(held: seq<Key>, table: Table, ids: seq<Id>) {
    Ordered(held) && forall key <- held, id <- ids :: Before(key, Key(table, id))
  }

  lemma SortedUniqueComesAbove(held: seq<Key>, table: Table, ids: seq<Id>)
    requires IsAbove(held, table, ids)
    ensures Ordered(held + Keys(table, SortedUnique(ids)))
  {
    var sorted := SortedUnique(ids);
    forall i, j | 0 <= i < |held| && 0 <= j < |sorted|
      ensures Before(held[i], Key(table, sorted[j]))
    {
      assert sorted[j] in Elements(sorted) && held[i] in held;
    }
  }

  lemma OneComesAbove(held: seq<Key>, table: Table, id: Id)
    requires IsAbove(held, table, [id])
    ensures Ordered(held + [Key(table, id)])
  {
    assert id in [id];
    forall i | 0 <= i < |held|
      ensures Before(held[i], Key(table, id))
    {
      assert held[i] in held;
    }
  }

  /** One transaction's row locks, in the order it took them. */
  class Transaction {
    var taken: seq<Key>

    constructor ()
      ensures taken == []
    {
      taken := [];
    }

    method LockUserRow(userId: Id)
      modifies this
      ensures taken == old(taken) + [Key(Users, userId)]
      ensures old(IsAbove(taken, Users, [userId])) ==> Ordered(taken)
    {
      if IsAbove(taken, Users, [userId]) {
        OneComesAbove(taken, Users, userId);
      }
      taken := taken + [Key(Users, userId)];
    }

    method LockWorkspaceRow(workspaceId: Id)
      modifies this
      ensures taken == old(taken) + [Key(Workspaces, workspaceId)]
      ensures old(IsAbove(taken, Workspaces, [workspaceId])) ==> Ordered(taken)
    {
      if IsAbove(taken, Workspaces, [workspaceId]) {
        OneComesAbove(taken, Workspaces, workspaceId);
      }
      taken := taken + [Key(Workspaces, workspaceId)];
    }

    method LockRefreshTokenFamily(familyId: Id)
      modifies this
      ensures taken == old(taken) + [Key(RefreshTokens, familyId)]
      ensures old(IsAbove(taken, RefreshTokens, [familyId])) ==> Ordered(taken)
    {
      if IsAbove(taken, RefreshTokens, [familyId]) {
        OneComesAbove(taken, RefreshTokens, familyId);
      }
      taken := taken + [Key(RefreshTokens, familyId)];
    }

    method LockUserRows(userIds: seq<Id>)
      modifies this
      ensures taken == old(taken) + Keys(Users, SortedUnique(userIds))
      ensures old(IsAbove(taken, Users, userIds)) ==> Ordered(taken)
    {
      var sorted := SortedUnique(userIds);
      for i := 0 to |sorted|
        invariant taken == old(taken) + Keys(Users, sorted[..i])
      {
        LockUserRow(sorted[i]);
        assert Keys(Users, sorted[..i + 1]) == Keys(Users, sorted[..i]) + [Key(Users, sorted[i])];
      }
      assert sorted[..|sorted|] == sorted;
      if old(IsAbove(taken, Users, userIds)) {
        SortedUniqueComesAbove(old(taken), Users, userIds);
      }
    }

    method LockWorkspaceRows(workspaceIds: seq<Id>)
      modifies this
      ensures taken == old(taken) + Keys(Workspaces, SortedUnique(workspaceIds))
      ensures old(IsAbove(taken, Workspaces, workspaceIds)) ==> Ordered(taken)
    {
      var sorted := SortedUnique(workspaceIds);
      for i := 0 to |sorted|
        invariant taken == old(taken) + Keys(Workspaces, sorted[..i])
      {
        LockWorkspaceRow(sorted[i]);
        assert Keys(Workspaces, sorted[..i + 1]) == Keys(Workspaces, sorted[..i]) + [Key(Workspaces, sorted[i])];
      }
      assert sorted[..|sorted|] == sorted;
      if old(IsAbove(taken, Workspaces, workspaceIds)) {
        SortedUniqueComesAbove(old(taken), Workspaces, workspaceIds);
      }
    }
  }

  /** Users, then workspaces, then one family: whatever the lists, the order is kept. */
  lemma DocumentedSequenceIsOrdered(userIds: seq<Id>, workspaceIds: seq<Id>, familyId: Id)
    ensures Ordered(Keys(Users, SortedUnique(userIds)) + Keys(Workspaces, SortedUnique(workspaceIds))
                    + [Key(RefreshTokens, familyId)])
  {
  }

  /**
    The erasure of an account, with the files and sessions it writes: in the order that is kept, and out
    of the documented one as soon as it has one of each.
   */
  lemma ErasureIsOrdered(userId: Id, workspaceIds: seq<Id>, fileIds: seq<Id>, familyIds: seq<Id>)
    ensures var plan := [Key(Users, userId)] + Keys(Workspaces, SortedUnique(workspaceIds))
                        + Keys(FileAssets, SortedUnique(fileIds)) + Keys(RefreshTokens, SortedUnique(familyIds));
      && Ordered(plan)
      && ((forall i, j :: 0 <= i < j < |plan| ==> BeforeAsDocumented(plan[i], plan[j])) <==> fileIds == [] || familyIds == [])
  {
    var users, workspaces := [Key(Users, userId)], Keys(Workspaces, SortedUnique(workspaceIds));
    var files, families := Keys(FileAssets, SortedUnique(fileIds)), Keys(RefreshTokens, SortedUnique(familyIds));
    var parents := users + workspaces;
    OrderedConcat(users, workspaces);
    OrderedConcat(parents, files);
    OrderedConcat(parents + files, families);
    NoElements(fileIds);
    NoElements(familyIds);
    NoElements(SortedUnique(fileIds));
    NoElements(SortedUnique(familyIds));
    FilesBeforeSessions(parents, files, families);
  }

  lemma OrderedConcat(one: seq<Key>, two: seq<Key>)
    requires Ordered(one) && Ordered(two) && forall a <- one, b <- two :: Before(a, b)
    ensures Ordered(one + two)
  {
  }

  lemma FilesBeforeSessions(parents: seq<Key>, files: seq<Key>, families: seq<Key>)
    requires Ordered(parents + files + families)
    requires forall key <- parents :: !key.table.FileAssets? && !key.table.RefreshTokens?
    requires (forall key <- files :: key.table.FileAssets?) && forall key <- families :: key.table.RefreshTokens?
    ensures var plan := parents + files + families;
      (forall i, j :: 0 <= i < j < |plan| ==> BeforeAsDocumented(plan[i], plan[j])) <==> files == [] || families == []
  {
    var plan := parents + files + families;
    if files != [] && families != [] {
      var i, j := |parents|, |parents + files|;
      assert plan[i] == files[0] && plan[j] == families[0];
      assert !BeforeAsDocumented(plan[i], plan[j]);
    }
  }

  // ---------------------------------------------------------------- no cycle of waiters

  type Name = nat

  /**
    The argument itself, free of any particular transaction: each running transaction wants at
    most one key, every key it holds comes before that one, and a key that is not free has a
    holder. Follow the holders upward from any transaction and one is found that can proceed.
   */
  lemma SomeoneProceeds(running: set<Name>, wants: map<Name, Option<Key>>, holder: map<Key, Name>, start: Name,
                        above: set<Key>)
    returns (t: Name)
    requires start in running && wants.Keys == running && holder.Values <= running
    requires forall key <- holder :: wants[holder[key]].Some? ==> Before(key, wants[holder[key]].value)
    requires above == set key <- holder | wants[start].Some? && !Before(key, wants[start].value)
    ensures t in running && (wants[t].Some? ==> wants[t].value !in holder)
    decreases above
  {
    if wants[start].None? || wants[start].value !in holder {
      return start;
    }
    var key := wants[start].value;
    var next := holder[key];
    var above' := set other <- holder | wants[next].Some? && !Before(other, wants[next].value);
    assert key in above && key !in above';
    forall other <- above'
      ensures other in above
    {
      BeforeIsTotal(other, key);
      assert Before(key, wants[next].value);
    }
    t := SomeoneProceeds(running, wants, holder, next, above');
  }
}
