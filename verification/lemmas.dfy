/**
 * Properties of the store's operations stated on the list of records:
 * which record a lookup finds after an append, a replacement or a removal,
 * and when ids stay unique.
 */
module PostLemmas {
  import opened Wrappers
  import opened Posts

  /** The seeded store has unique ids, and ids 1 and 2 are found. */
  lemma SeedLookups()
    ensures UniqueIds(Seed())
    ensures Lookup(Seed(), 1).Some? && Lookup(Seed(), 2).Some?
    ensures forall id :: id != 1 && id != 2 ==> Lookup(Seed(), id).None?
  {
    assert Seed()[0].id == 1 && Seed()[1].id == 2;
  }

  /** A record stored by a handler gives back exactly the validated body. */
  lemma FromBodyRoundTrip(id: int, b: Body)
    ensures FromBody(id, b).id == id
    ensures BodyOf(FromBody(id, b)) == Some(b)
  {
  }

  /**
   * A body whose `published` and `rating` the client left out is stored
   * with `published` true and `rating` None.
   */
  lemma DefaultsStored(title: string, content: string, id: int)
    ensures BodyOf(FromBody(id, MakeBody(title, content, None, None))) == Some(Body(title, content, true, None))
  {
    FromBodyRoundTrip(id, MakeBody(title, content, None, None));
  }

  /** An index that holds `id`, with no earlier record holding it, is the index `FirstIndex` returns. */
  lemma {:induction false} FirstIndexIs(s: seq<Record>, id: int, i: nat)
    requires i < |s| && s[i].id == id
    requires forall j :: 0 <= j < i ==> s[j].id != id
    ensures FirstIndex(s, id) == Some(i)
  {
    assert FirstIndex(s, id).Some?;
  }

  /** Removing one record keeps ids unique. */
  lemma {:induction false} RemovePreservesUnique(s: seq<Record>, i: nat)
    requires UniqueIds(s) && i < |s|
    ensures UniqueIds(RemoveAt(s, i))
  {
    var t := RemoveAt(s, i);
    forall a, b | 0 <= a < b < |t|
      ensures t[a].id != t[b].id
    {
      var a' := if a < i then a else a + 1;
      var b' := if b < i then b else b + 1;
      assert t[a] == s[a'] && t[b] == s[b'] && a' < b';
    }
  }

  /** Replacing a record by one with the same id keeps ids unique. */
  lemma ReplacePreservesUnique(s: seq<Record>, i: nat, r: Record)
    requires UniqueIds(s) && i < |s| && r.id == s[i].id
    ensures UniqueIds(s[i := r])
  {
    var t := s[i := r];
    forall a, b | 0 <= a < b < |t|
      ensures t[a].id != t[b].id
    {
      assert t[a].id == s[a].id && t[b].id == s[b].id;
    }
  }

  /** Appending keeps ids unique exactly when the new id is not already present. */
  lemma AppendUniqueIff(s: seq<Record>, r: Record)
    requires UniqueIds(s)
    ensures UniqueIds(s + [r]) <==> !HasId(s, r.id)
  {
    var t := s + [r];
    if HasId(s, r.id) {
      var k :| 0 <= k < |s| && s[k].id == r.id;
      assert t[k].id == t[|s|].id;
    } else {
      forall a, b | 0 <= a < b < |t|
        ensures t[a].id != t[b].id
      {
        if b < |s| {
          assert t[a] == s[a] && t[b] == s[b];
        } else {
          assert t[a] == s[a] && t[b] == r;
        }
      }
    }
  }

  /**
   * After an append, a lookup of the new id finds the new record only when
   * the id was fresh; otherwise the older record with that id shadows it.
   */
  lemma {:induction false} LookupAfterAppend(s: seq<Record>, r: Record)
    ensures Lookup(s + [r], r.id) == if HasId(s, r.id) then Lookup(s, r.id) else Some(r)
  {
    var t := s + [r];
    match FirstIndex(s, r.id)
    case None =>
      assert forall j :: 0 <= j < |s| ==> t[j] == s[j];
      FirstIndexIs(t, r.id, |s|);
    case Some(i) =>
      assert forall j :: 0 <= j <= i ==> t[j] == s[j];
      FirstIndexIs(t, r.id, i);
  }

  /** An append leaves the lookup of every other id unchanged. */
  lemma {:induction false} LookupOtherAfterAppend(s: seq<Record>, r: Record, id: int)
    requires id != r.id
    ensures Lookup(s + [r], id) == Lookup(s, id)
  {
    var t := s + [r];
    match FirstIndex(s, id)
    case None =>
      assert forall j :: 0 <= j < |t| ==> t[j].id != id by {
        forall j | 0 <= j < |t| ensures t[j].id != id {
          if j < |s| { assert t[j] == s[j]; }
        }
      }
    case Some(i) =>
      assert forall j :: 0 <= j <= i ==> t[j] == s[j];
      FirstIndexIs(t, id, i);
  }

  /**
   * Replacing the first record with id `r.id` by `r`: a lookup of that id
   * then finds `r`.
   */
  lemma {:induction false} LookupAfterReplace(s: seq<Record>, i: nat, r: Record)
    requires FirstIndex(s, r.id) == Some(i)
    ensures Lookup(s[i := r], r.id) == Some(r)
  {
    FirstIndexIs(s[i := r], r.id, i);
  }

  /** A replacement that keeps the id leaves the lookup of every other id unchanged. */
  lemma {:induction false} LookupOtherAfterReplace(s: seq<Record>, i: nat, r: Record, id: int)
    requires i < |s| && r.id == s[i].id && id != r.id
    ensures Lookup(s[i := r], id) == Lookup(s, id)
  {
    var t := s[i := r];
    assert forall j :: 0 <= j < |s| ==> (t[j].id == id <==> s[j].id == id);
    match FirstIndex(s, id)
    case None =>
    case Some(k) =>
      FirstIndexIs(t, id, k);
      assert t[k] == s[k];
  }

  /**
   * Removing the first record with id `id`: a lookup of `id` then finds the
   * next record with that id further along, if there is one.
   */
  lemma {:induction false} LookupAfterRemove(s: seq<Record>, i: nat, id: int)
    requires FirstIndex(s, id) == Some(i)
    ensures Lookup(RemoveAt(s, i), id) == Lookup(s[i + 1..], id)
  {
    var t := RemoveAt(s, i);
    var u := s[i + 1..];
    assert forall k :: 0 <= k < |u| ==> u[k] == s[i + 1 + k];
    match FirstIndex(u, id)
    case None =>
      forall j | 0 <= j < |t| ensures t[j].id != id {
        if j >= i { assert t[j] == u[j - i]; }
      }
    case Some(k) =>
      forall j | 0 <= j < i + k ensures t[j].id != id {
        if j >= i { assert t[j] == u[j - i]; }
      }
      assert t[i + k] == u[k];
      FirstIndexIs(t, id, i + k);
  }

  /** With unique ids, once the record with id `id` is removed no record has that id. */
  lemma LookupAfterRemoveUnique(s: seq<Record>, i: nat, id: int)
    requires UniqueIds(s) && FirstIndex(s, id) == Some(i)
    ensures Lookup(RemoveAt(s, i), id) == None
  {
    LookupAfterRemove(s, i, id);
    var u := s[i + 1..];
    forall k | 0 <= k < |u| ensures u[k].id != id {
      assert u[k] == s[i + 1 + k];
    }
  }

  /** A removal leaves the lookup of every other id unchanged. */
  lemma {:induction false} LookupOtherAfterRemove(s: seq<Record>, i: nat, id: int)
    requires i < |s| && s[i].id != id
    ensures Lookup(RemoveAt(s, i), id) == Lookup(s, id)
  {
    var t := RemoveAt(s, i);
    match FirstIndex(s, id)
    case None =>
      forall j | 0 <= j < |t| ensures t[j].id != id {
        if j >= i { assert t[j] == s[j + 1]; }
      }
    case Some(k) =>
      if k < i {
        FirstIndexIs(t, id, k);
      } else {
        assert k > i;
        forall j | 0 <= j < k - 1 ensures t[j].id != id {
          if j >= i { assert t[j] == s[j + 1]; }
        }
        FirstIndexIs(t, id, k - 1);
      }
  }
}
