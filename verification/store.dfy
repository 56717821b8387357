/**
 * The handlers of main.py over the global list `my_posts`, as a class
 * owning that list. Each handler either changes the list as the Python code
 * does or reports NotFound carrying the requested id.
 */
module Store {
  import opened Wrappers
  import opened Posts
  import opened PostLemmas

  class PostStore {
    /** The global list `my_posts`, in storage order. */
    var posts: seq<Record>

    /** The module-level initialisation of `my_posts` with two seeded records. */
    constructor ()
      ensures posts == Seed()
      ensures UniqueIds(posts)
    {
      posts := Seed();
      SeedLookups();
    }

    /** `find_index_post`: scan for the first record with id `id`. */
    method FindIndex(id: int) returns (r: Option<nat>)
      ensures r == FirstIndex(posts, id)
      ensures r.None? <==> !HasId(posts, id)
    {
      var i := 0;
      while i < |posts|
        invariant 0 <= i <= |posts|
        invariant forall j :: 0 <= j < i ==> posts[j].id != id
      {
        if posts[i].id == id {
          FirstIndexIs(posts, id, i);
          return Some(i);
        }
        i := i + 1;
      }
      return None;
    }

    /** `find_post`: scan for the first record with id `id` and return it. */
    method FindPost(id: int) returns (r: Option<Record>)
      ensures r == Lookup(posts, id)
    {
      var i := 0;
      while i < |posts|
        invariant 0 <= i <= |posts|
        invariant forall j :: 0 <= j < i ==> posts[j].id != id
      {
        if posts[i].id == id {
          FirstIndexIs(posts, id, i);
          return Some(posts[i]);
        }
        i := i + 1;
      }
      return None;
    }

    /** `get_posts`: every stored record, in storage order. */
    method All() returns (s: seq<Record>)
      ensures s == posts
    {
      s := posts;
    }

    /**
     * `create_posts`: append the validated body under the id `newId`, which
     * `create_posts` draws from `randrange(0, 1000000)` and never checks for
     * collisions.
     */
    method Create(body: Body, newId: int) returns (r: Record)
      requires 0 <= newId < IdBound
      modifies this
      ensures r.id == newId && BodyOf(r) == Some(body)
      ensures posts == old(posts) + [r]
      ensures UniqueIds(old(posts)) ==> (UniqueIds(posts) <==> !HasId(old(posts), newId))
      ensures Lookup(posts, newId) == if HasId(old(posts), newId) then Lookup(old(posts), newId) else Some(r)
      ensures forall other :: other != newId ==> Lookup(posts, other) == Lookup(old(posts), other)
    {
      r := FromBody(newId, body);
      FromBodyRoundTrip(newId, body);
      ghost var before := posts;
      posts := posts + [r];
      LookupAfterAppend(before, r);
      if UniqueIds(before) {
        AppendUniqueIff(before, r);
      }
      forall other | other != newId
        ensures Lookup(posts, other) == Lookup(before, other)
      {
        LookupOtherAfterAppend(before, r, other);
      }
    }

    /** `get_post`: the first record with id `id`, or NotFound(id). */
    method Get(id: int) returns (r: Outcome<Record>)
      ensures r.NotFound? <==> !HasId(posts, id)
      ensures r.NotFound? ==> r.id == id
      ensures r.Ok? ==> Lookup(posts, id) == Some(r.value)
    {
      var p := FindPost(id);
      if p.None? {
        return NotFound(id);
      }
      return Ok(p.value);
    }

    /** `delete_post`: pop the first record with id `id`, or NotFound(id). */
    method Delete(id: int) returns (r: Outcome<()>)
      modifies this
      ensures match FirstIndex(old(posts), id)
        case None => r == NotFound(id) && posts == old(posts)
        case Some(i) => r == Ok(()) && posts == RemoveAt(old(posts), i)
      ensures r.Ok? ==> Lookup(posts, id) == Lookup(old(posts)[FirstIndex(old(posts), id).value + 1..], id)
      ensures UniqueIds(old(posts)) ==> UniqueIds(posts) && Lookup(posts, id).None?
      ensures forall other :: other != id ==> Lookup(posts, other) == Lookup(old(posts), other)
    {
      var index := FindIndex(id);
      if index.None? {
        return NotFound(id);
      }
      ghost var before := posts;
      var i := index.value;
      posts := posts[..i] + posts[i + 1..];
      LookupAfterRemove(before, i, id);
      if UniqueIds(before) {
        RemovePreservesUnique(before, i);
        LookupAfterRemoveUnique(before, i, id);
      }
      forall other | other != id
        ensures Lookup(posts, other) == Lookup(before, other)
      {
        LookupOtherAfterRemove(before, i, other);
      }
      r := Ok(());
    }

    /**
     * `update_post`: replace the first record with id `id` by the validated
     * body stored under that same id, or NotFound(id).
     */
    method Update(id: int, body: Body) returns (r: Outcome<Record>)
      modifies this
      ensures match FirstIndex(old(posts), id)
        case None => r == NotFound(id) && posts == old(posts)
        case Some(i) => r == Ok(FromBody(id, body)) && posts == old(posts)[i := FromBody(id, body)]
      ensures r.Ok? ==> r.value.id == id && BodyOf(r.value) == Some(body) && Lookup(posts, id) == Some(r.value)
      ensures UniqueIds(old(posts)) ==> UniqueIds(posts)
      ensures forall other :: other != id ==> Lookup(posts, other) == Lookup(old(posts), other)
    {
      var index := FindIndex(id);
      if index.None? {
        return NotFound(id);
      }
      ghost var before := posts;
      var i := index.value;
      var post := FromBody(id, body);
      FromBodyRoundTrip(id, body);
      posts := posts[i := post];
      LookupAfterReplace(before, i, post);
      if UniqueIds(before) {
        ReplacePreservesUnique(before, i, post);
      }
      forall other | other != id
        ensures Lookup(posts, other) == Lookup(before, other)
      {
        LookupOtherAfterReplace(before, i, post, other);
      }
      r := Ok(post);
    }
  }
}
