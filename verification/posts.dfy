/**
 * The records of the in-memory post store (main.py) and the pure
 * definitions its handlers are specified against.
 */
module Posts {
  import opened Wrappers

  /** Exclusive upper bound of the random ids given to new posts (`randrange(0, 1000000)`). */
  const IdBound: int := 1000000

  /**
   * A request body after it has been validated against the `Post` schema:
   * `published` and `rating` already carry their defaults when the client
   * left them out.
   */
  datatype Body = Body(title: string, content: string, published: bool, rating: Option<int>)

  /**
   * The schema-only keys of a stored record. The two seeded records were
   * written by hand without `published` and `rating`; every record stored
   * by a handler carries both.
   */
  datatype Extra = Unset | Set(published: bool, rating: Option<int>)

  /** One dictionary of the store: `{"title", "content", "id", ...}`. */
  datatype Record = Record(id: int, title: string, content: string, extra: Extra)

  /** What a handler reports: a value, or the 404 naming the missing id. */
  datatype Outcome<T> = Ok(value: T) | NotFound(id: int)

  /**
   * Validation of a body against the schema: an omitted `published` becomes
   * true, an omitted `rating` becomes None.
   */
  function MakeBody(title: string, content: string, published: Option<bool>, rating: Option<int>): (b: Body)
    ensures b.title == title && b.content == content && b.rating == rating
    ensures b.published <==> published != Some(false)
  {
    Body(title, content, if published.Some? then published.value else true, rating)
  }

  /** The dictionary `post.dict()` with the key `id` added. */
  function FromBody(id: int, b: Body): (r: Record)
  {
    Record(id, b.title, b.content, Set(b.published, b.rating))
  }

  /** The schema view of a stored record; seeded records have none. */
  function BodyOf(r: Record): Option<Body>
  {
    match r.extra
    case Unset => None
    case Set(published, rating) => Some(Body(r.title, r.content, published, rating))
  }

  /** The records the store starts with. */
  function Seed(): seq<Record>
  {
    [ Record(1, "title of post 1", "content of post 1", Unset),
      Record(2, "favourite foods", "I like pizza", Unset) ]
  }

  /** No two records share an id. */
  ghost predicate UniqueIds(s: seq<Record>)
  {
    forall i, j :: 0 <= i < j < |s| ==> s[i].id != s[j].id
  }

  /** Some record has id `id`. */
  ghost predicate HasId(s: seq<Record>, id: int)
  {
    exists k :: 0 <= k < |s| && s[k].id == id
  }

  /** The index `find_index_post` returns: the first record with id `id`, if any. */
  function FirstIndex(s: seq<Record>, id: int): (r: Option<nat>)
    ensures r.Some? ==> r.value < |s| && s[r.value].id == id
    ensures r.Some? ==> forall j :: 0 <= j < r.value ==> s[j].id != id
    ensures r.None? <==> forall j :: 0 <= j < |s| ==> s[j].id != id
  {
    if |s| == 0 then None
    else if s[0].id == id then Some(0)
    else match FirstIndex(s[1..], id)
      case None => None
      case Some(k) => Some(k + 1)
  }

  /** The record `find_post` returns: the first one with id `id`, if any. */
  function Lookup(s: seq<Record>, id: int): (r: Option<Record>)
    ensures r.None? <==> !HasId(s, id)
    ensures r.Some? ==> r.value.id == id
    ensures r.Some? ==> exists i :: 0 <= i < |s| && s[i] == r.value && forall j :: 0 <= j < i ==> s[j].id != id
  {
    match FirstIndex(s, id)
    case None => None
    case Some(i) => Some(s[i])
  }

  /** The list after `pop(i)`. */
  function RemoveAt(s: seq<Record>, i: nat): (t: seq<Record>)
    requires i < |s|
    ensures |t| == |s| - 1
    ensures forall k :: 0 <= k < i ==> t[k] == s[k]
    ensures forall k :: i <= k < |t| ==> t[k] == s[k + 1]
  {
    s[..i] + s[i + 1..]
  }
}
