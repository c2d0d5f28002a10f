/** The local genre lookup (LocalGenres::getGenres): the requested names
    are normalised, looked up in a cache under a key built from the limit
    and the names, and otherwise read from the genres table in the order of
    the request; an empty answer is a 404 and is not cached. */
module LocalGenres {
  import opened Wrappers
  import opened Text
  import opened Sequences
  import opened Store
  import opened Catalog

  const NotFound: int := 404

  /** Input::get('limit', 20), as the text the cache key is built from. */
  function LimitText(limit: Option<string>): string
  {
    match limit
    case Some(l) => l
    case None => "20"
  }

  /** The cache key: "genres." then the limit then the normalised names. */
  function CacheKey(limit: Option<string>, names: string): (r: string)
    ensures |r| == |"genres." + LimitText(limit)| + |names|
    ensures r[..|"genres." + LimitText(limit)|] == "genres." + LimitText(limit)
    ensures r[|"genres." + LimitText(limit)|..] == names
  {
    "genres." + LimitText(limit) + names
  }

  /** For one limit, different names never share a cache key. */
  lemma CacheKeyInjective(limit: Option<string>, a: string, b: string)
    ensures CacheKey(limit, a) == CacheKey(limit, b) <==> a == b
  {
    var prefix := "genres." + LimitText(limit);
    if CacheKey(limit, a) == CacheKey(limit, b) {
      assert a == CacheKey(limit, a)[|prefix|..];
      assert b == CacheKey(limit, b)[|prefix|..];
    }
  }

  /** As written, the limit and the names meet with no separator, so two
      requests with different limits can share a key: limit 2 with the
      names "0rock" and limit 20 with the names "rock". */
  lemma CacheKeyCollidesAcrossLimits()
    ensures Some("2") != Some("20")
    ensures CacheKey(Some("2"), "0rock") == CacheKey(Some("20"), "rock")
  {
  }

  /** The cache key with a '.' between the limit and the names. The limit
      is a number, so its text holds no '.'. */
  function SeparatedCacheKey(limit: Option<string>, names: string): (r: string)
    ensures |r| == |"genres." + LimitText(limit)| + 1 + |names|
    ensures r[..|"genres." + LimitText(limit)|] == "genres." + LimitText(limit)
    ensures r[|"genres." + LimitText(limit)|] == '.'
    ensures r[|"genres." + LimitText(limit)| + 1..] == names
  {
    "genres." + LimitText(limit) + "." + names
  }

  /** With the separator, two requests share a key exactly when their
      limits and their names agree. */
  lemma SeparatedCacheKeyInjective(l1: Option<string>, l2: Option<string>, a: string, b: string)
    requires '.' !in LimitText(l1) && '.' !in LimitText(l2)
    ensures SeparatedCacheKey(l1, a) == SeparatedCacheKey(l2, b) <==> LimitText(l1) == LimitText(l2) && a == b
  {
    var t1, t2 := LimitText(l1), LimitText(l2);
    if SeparatedCacheKey(l1, a) == SeparatedCacheKey(l2, b) {
      var key := SeparatedCacheKey(l1, a);
      var n := |"genres."|;
      assert |t1| == |t2| by {
        assert key[n + |t1|] == '.' && key[n + |t2|] == '.';
        assert forall i :: 0 <= i < |t1| ==> key[n + i] == t1[i];
        assert forall i :: 0 <= i < |t2| ==> key[n + i] == t2[i];
      }
      assert t1 == key[n..n + |t1|] == t2;
      assert a == key[n + |t1| + 1..] == b;
    }
  }

  /** "'".$v."'". */
  function Quote(v: string): string
  {
    "'" + v + "'"
  }

  function QuotedAll(parts: seq<string>): (r: seq<string>)
    ensures |r| == |parts| && forall i :: 0 <= i < |parts| ==> r[i] == Quote(parts[i])
  {
    seq(|parts|, i requires 0 <= i < |parts| => Quote(parts[i]))
  }

  /** $orderBy: every name of the list, quoted, joined with ','. */
  function OrderList(names: string): (r: string)
    ensures Split(r, ',') == QuotedAll(Split(names, ','))
    ensures |Split(r, ',')| == |Split(names, ',')|
  {
    var quoted := QuotedAll(Split(names, ','));
    QuotedCommaFree(Split(names, ','));
    SplitJoin(quoted, ',');
    Join(quoted, ",")
  }

  /** Quoting comma-free parts keeps them comma-free. */
  lemma QuotedCommaFree(parts: seq<string>)
    requires forall i :: 0 <= i < |parts| ==> ',' !in parts[i]
    ensures forall i :: 0 <= i < |parts| ==> ',' !in QuotedAll(parts)[i]
  {
    forall i | 0 <= i < |parts| ensures ',' !in QuotedAll(parts)[i] {
      assert QuotedAll(parts)[i] == ['\''] + parts[i] + ['\''];
    }
  }

  /** A FIELD() argument without its quotes. */
  function Unquote(item: string): string
  {
    if |item| >= 2 && item[0] == '\'' && item[|item| - 1] == '\'' then item[1..|item| - 1] else item
  }

  /** The names FIELD(name, ...) compares against, read off the order list. */
  function FieldItems(orderBy: string): (r: seq<string>)
    ensures |r| == |Split(orderBy, ',')|
    ensures forall i :: 0 <= i < |r| ==> r[i] == Unquote(Split(orderBy, ',')[i])
  {
    var items := Split(orderBy, ',');
    seq(|items|, i requires 0 <= i < |items| => Unquote(items[i]))
  }

  /** Reading the order list back gives the requested names, in order. */
  lemma FieldItemsOfOrderList(names: string)
    ensures FieldItems(OrderList(names)) == Split(names, ',')
  {
    var parts := Split(names, ',');
    forall i | 0 <= i < |parts| ensures Unquote(Quote(parts[i])) == parts[i] {
      var q := Quote(parts[i]);
      assert q[1..|q| - 1] == parts[i];
    }
  }

  /** FIELD(name, list): the 1-based position of the first item equal to
      name (ignoring letter case), 0 when there is none. */
  function FieldPosition(name: string, list: seq<string>): (r: nat)
    ensures r == 0 <==> !NameIn(name, list)
    ensures r > 0 ==> r <= |list| && SameName(list[r - 1], name)
                      && forall j :: 0 <= j < r - 1 ==> !SameName(list[j], name)
    decreases |list|
  {
    if list == [] then 0
    else if SameName(list[0], name) then 1
    else
      var r := FieldPosition(name, list[1..]);
      assert forall j :: 1 <= j < |list| ==> list[j] == list[1..][j - 1];
      if r == 0 then 0 else r + 1
  }

  function FieldKey(list: seq<string>): Row<GenreData> -> int
  {
    (g: Row<GenreData>) => FieldPosition(g.name, list)
  }

  /** whereIn('name', $whereIn)->orderByRaw(FIELD(name, $field))->get(). */
  function OrderedGenres(rows: seq<Row<GenreData>>, whereIn: seq<string>, field: seq<string>): (r: seq<Row<GenreData>>)
    ensures multiset(r) == multiset(NamedRows(rows, whereIn))
    ensures SortedByKey(r, FieldKey(field))
  {
    SortByKey(NamedRows(rows, whereIn), FieldKey(field))
  }

  /** The query returns exactly the stored genres named in the list, each
      once, ordered by the position of its name in the list. */
  lemma OrderedGenresMeans(rows: seq<Row<GenreData>>, list: seq<string>)
    ensures var r := OrderedGenres(rows, list, list);
            && multiset(r) == multiset(NamedRows(rows, list))
            && (forall i :: 0 <= i < |r| ==> r[i] in rows && NameIn(r[i].name, list))
            && (forall i :: 0 <= i < |rows| && NameIn(rows[i].name, list) ==> rows[i] in r)
            && (forall i, j :: 0 <= i < j < |r| ==> 0 < FieldPosition(r[i].name, list) <= FieldPosition(r[j].name, list))
  {
    var named := NamedRows(rows, list);
    var r := OrderedGenres(rows, list, list);
    forall i | 0 <= i < |r| ensures r[i] in rows && NameIn(r[i].name, list) {
      assert r[i] in multiset(named);
    }
    forall i | 0 <= i < |rows| && NameIn(rows[i].name, list) ensures rows[i] in r {
      assert rows[i] in multiset(named);
    }
    forall i, j | 0 <= i < j < |r|
      ensures 0 < FieldPosition(r[i].name, list) <= FieldPosition(r[j].name, list)
    {
      assert FieldKey(list)(r[i]) <= FieldKey(list)(r[j]);
      assert NameIn(r[i].name, list);
    }
  }

  /** Cache::has/get/put without expiry. Only non-empty results are ever
      stored. */
  class GenreCache {
    var entries: map<string, seq<Row<GenreData>>>

    ghost predicate Valid()
      reads this
    {
      forall k :: k in entries ==> entries[k] != []
    }

    constructor ()
      ensures Valid() && entries == map[]
    {
      entries := map[];
    }

    function Has(key: string): bool
      reads this
    {
      key in entries
    }

    function Get(key: string): seq<Row<GenreData>>
      reads this
      requires Has(key)
    {
      entries[key]
    }

    method Put(key: string, value: seq<Row<GenreData>>)
      requires Valid() && value != []
      modifies this
      ensures Valid()
      ensures entries == old(entries)[key := value]
    {
      entries := entries[key := value];
    }
  }

  /** The genres table; queries counts the reads made of it. */
  class GenreRepository {
    var genres: seq<Row<GenreData>>
    ghost var queries: nat

    constructor (genres: seq<Row<GenreData>>)
      ensures this.genres == genres && queries == 0
    {
      this.genres := genres;
      queries := 0;
    }

    /** One query: the genres named in whereIn, in FIELD() order. */
    method FindOrdered(whereIn: seq<string>, field: seq<string>) returns (r: seq<Row<GenreData>>)
      modifies this
      ensures genres == old(genres) && queries == old(queries) + 1
      ensures r == OrderedGenres(genres, whereIn, field)
    {
      queries := queries + 1;
      r := OrderedGenres(genres, whereIn, field);
    }
  }

  /** getGenres: on a cache hit the stored value, with no query; otherwise
      one query, 404 when it finds nothing, and the non-empty result cached
      under the key. */
  method GetGenres(names: string, limit: Option<string>, cache: GenreCache, repo: GenreRepository)
    returns (r: Result<seq<Row<GenreData>>, int>)
    requires cache.Valid()
    modifies cache, repo
    ensures cache.Valid() && repo.genres == old(repo.genres)
    ensures r.Ok? ==> r.value != []
    ensures var normalised := ReplaceCommaSpace(names);
            var key := CacheKey(limit, normalised);
            var list := Split(normalised, ',');
            if key in old(cache.entries) then
              && r == Ok(old(cache.entries)[key])
              && cache.entries == old(cache.entries)
              && repo.queries == old(repo.queries)
            else
              var found := OrderedGenres(old(repo.genres), list, list);
              && repo.queries == old(repo.queries) + 1
              && (found == [] ==> r == Err(NotFound) && cache.entries == old(cache.entries))
              && (found != [] ==> r == Ok(found) && cache.entries == old(cache.entries)[key := found])
  {
    var normalised := ReplaceCommaSpace(names);
    var orderBy := OrderList(normalised);
    var key := CacheKey(limit, normalised);
    if cache.Has(key) {
      return Ok(cache.Get(key));
    }
    FieldItemsOfOrderList(normalised);
    var genres := repo.FindOrdered(Split(normalised, ','), FieldItems(orderBy));
    if genres == [] {
      return Err(NotFound);
    }
    cache.Put(key, genres);
    return Ok(genres);
  }
}
