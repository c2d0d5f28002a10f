/** The persistence seam the providers write through, as an in-memory
    store: tables of {id, name, ...} rows queried by name, the bulk
    ArtistSaver::saveOrUpdate (insert-biased: a row whose name is already
    stored is skipped), the plain bulk Model::insert, Eloquent's
    Collection::merge and the genre_artist pivot table. Names are compared
    as a case-insensitive collation would compare them: ASCII lower case. */
module Store {
  import opened Wrappers
  import opened Text
  import opened Sequences

  /** A stored row: the store-assigned id, the display name and the
      entity's other columns. */
  datatype Row<D> = Row(id: nat, name: string, data: D)

  /** A row about to be written; the store assigns its id. */
  datatype Candidate<D> = Candidate(name: string, data: D)

  /** Some entry of names equals name, ignoring ASCII case. */
  predicate NameIn(name: string, names: seq<string>)
  {
    exists j :: 0 <= j < |names| && SameName(names[j], name)
  }

  /** Some row is named name, ignoring ASCII case. */
  predicate HasName<D>(rows: seq<Row<D>>, name: string)
  {
    exists i :: 0 <= i < |rows| && SameName(rows[i].name, name)
  }

  function RowNames<D>(rows: seq<Row<D>>): (r: seq<string>)
    ensures |r| == |rows| && forall i :: 0 <= i < |rows| ==> r[i] == rows[i].name
  {
    seq(|rows|, i requires 0 <= i < |rows| => rows[i].name)
  }

  function CandidateNames<D>(cs: seq<Candidate<D>>): (r: seq<string>)
    ensures |r| == |cs| && forall i :: 0 <= i < |cs| ==> r[i] == cs[i].name
  {
    seq(|cs|, i requires 0 <= i < |cs| => cs[i].name)
  }

  lemma CandidateNamesSnoc<D>(cs: seq<Candidate<D>>, c: Candidate<D>)
    ensures CandidateNames(cs + [c]) == CandidateNames(cs) + [c.name]
  {
  }

  ghost predicate IdsBelow<D>(rows: seq<Row<D>>, next: nat)
  {
    forall i :: 0 <= i < |rows| ==> rows[i].id < next
  }

  ghost predicate UniqueIds<D>(rows: seq<Row<D>>)
  {
    forall i, j :: 0 <= i < j < |rows| ==> rows[i].id != rows[j].id
  }

  lemma HasNameGrows<D>(rows: seq<Row<D>>, rows': seq<Row<D>>, name: string)
    requires |rows| <= |rows'| && rows'[..|rows|] == rows
    requires HasName(rows, name)
    ensures HasName(rows', name)
  {
    var i :| 0 <= i < |rows| && SameName(rows[i].name, name);
    assert rows'[i] == rows[i];
  }

  /** Two rows of a table with unique ids that share an id are the same row. */
  lemma SameIdSameRow<D>(u: seq<Row<D>>, x: Row<D>, y: Row<D>)
    requires UniqueIds(u) && x in u && y in u && x.id == y.id
    ensures x == y
  {
    var i :| 0 <= i < |u| && u[i] == x;
    var j :| 0 <= j < |u| && u[j] == y;
    assert i == j;
  }

  // ---------------------------------------------------------------------
  // saveOrUpdate

  /** ArtistSaver::saveOrUpdate on one table: each candidate, in batch
      order, is appended with the next auto-increment id unless a row of
      the same name is already stored (one written earlier in the same
      batch included). Returns the new rows and the next free id. */
  function Upsert<D>(rows: seq<Row<D>>, next: nat, batch: seq<Candidate<D>>): (r: (seq<Row<D>>, nat))
    ensures next <= r.1 && |rows| <= |r.0| <= |rows| + |batch|
    ensures r.1 - next == |r.0| - |rows|
    decreases |batch|
  {
    if batch == [] then (rows, next)
    else if HasName(rows, batch[0].name) then Upsert(rows, next, batch[1..])
    else Upsert(rows + [Row(next, batch[0].name, batch[0].data)], next + 1, batch[1..])
  }

  lemma {:induction false} UpsertPrefix<D>(rows: seq<Row<D>>, next: nat, batch: seq<Candidate<D>>)
    ensures var (rows', next') := Upsert(rows, next, batch);
            next <= next' && |rows| <= |rows'| && rows'[..|rows|] == rows
    decreases |batch|
  {
    if batch != [] {
      var c := batch[0];
      var grown := if HasName(rows, c.name) then rows else rows + [Row(next, c.name, c.data)];
      var next1 := if HasName(rows, c.name) then next else next + 1;
      UpsertPrefix(grown, next1, batch[1..]);
      var rows' := Upsert(grown, next1, batch[1..]).0;
      assert rows'[..|rows|] == rows'[..|grown|][..|rows|];
    }
  }

  lemma {:induction false} UpsertIds<D>(rows: seq<Row<D>>, next: nat, batch: seq<Candidate<D>>)
    requires IdsBelow(rows, next) && UniqueIds(rows)
    ensures var (rows', next') := Upsert(rows, next, batch);
            IdsBelow(rows', next') && UniqueIds(rows')
    decreases |batch|
  {
    if batch != [] {
      var c := batch[0];
      if !HasName(rows, c.name) {
        var grown := rows + [Row(next, c.name, c.data)];
        assert IdsBelow(grown, next + 1);
        assert UniqueIds(grown) by {
          forall i, j | 0 <= i < j < |grown| ensures grown[i].id != grown[j].id {
            if j == |rows| {
              assert grown[i] == rows[i];
            } else {
              assert grown[i] == rows[i] && grown[j] == rows[j];
            }
          }
        }
        UpsertIds(grown, next + 1, batch[1..]);
      } else {
        UpsertIds(rows, next, batch[1..]);
      }
    }
  }

  lemma {:induction false} UpsertContents<D>(rows: seq<Row<D>>, next: nat, batch: seq<Candidate<D>>)
    ensures var rows' := Upsert(rows, next, batch).0;
            && (forall i :: 0 <= i < |batch| ==> HasName(rows', batch[i].name))
            && (forall i :: |rows| <= i < |rows'| ==> Candidate(rows'[i].name, rows'[i].data) in batch)
    decreases |batch|
  {
    if batch != [] {
      var c := batch[0];
      var grown := if HasName(rows, c.name) then rows else rows + [Row(next, c.name, c.data)];
      var next1 := if HasName(rows, c.name) then next else next + 1;
      UpsertContents(grown, next1, batch[1..]);
      UpsertPrefix(grown, next1, batch[1..]);
      var rows' := Upsert(grown, next1, batch[1..]).0;
      assert HasName(grown, c.name) by {
        if !HasName(rows, c.name) {
          assert grown[|rows|].name == c.name;
        }
      }
      HasNameGrows(grown, rows', c.name);
      forall i | 0 <= i < |batch| ensures HasName(rows', batch[i].name) {
        if i > 0 {
          assert batch[i] == batch[1..][i - 1];
        }
      }
      forall i | |rows| <= i < |rows'| ensures Candidate(rows'[i].name, rows'[i].data) in batch {
        if i < |grown| {
          assert rows'[i] == grown[i] == Row(next, c.name, c.data);
        } else {
          assert Candidate(rows'[i].name, rows'[i].data) in batch[1..];
        }
      }
    }
  }

  /** saveOrUpdate keeps every stored row as it was, keeps ids unique, leaves
      every candidate's name stored, and adds nothing but candidates. */
  lemma UpsertFacts<D>(rows: seq<Row<D>>, next: nat, batch: seq<Candidate<D>>)
    requires IdsBelow(rows, next) && UniqueIds(rows)
    ensures var (rows', next') := Upsert(rows, next, batch);
            && IdsBelow(rows', next') && UniqueIds(rows') && next <= next'
            && |rows| <= |rows'| && rows'[..|rows|] == rows
            && (forall i :: 0 <= i < |batch| ==> HasName(rows', batch[i].name))
            && (forall i :: |rows| <= i < |rows'| ==> Candidate(rows'[i].name, rows'[i].data) in batch)
  {
    UpsertPrefix(rows, next, batch);
    UpsertIds(rows, next, batch);
    UpsertContents(rows, next, batch);
  }

  /** A batch whose every name is already stored changes nothing. */
  lemma {:induction false} UpsertAllStored<D>(rows: seq<Row<D>>, next: nat, batch: seq<Candidate<D>>)
    requires forall i :: 0 <= i < |batch| ==> HasName(rows, batch[i].name)
    ensures Upsert(rows, next, batch) == (rows, next)
    decreases |batch|
  {
    if batch != [] {
      UpsertAllStored(rows, next, batch[1..]);
    }
  }

  /** Writing the same batch twice writes nothing the second time. */
  lemma UpsertIdempotent<D>(rows: seq<Row<D>>, next: nat, batch: seq<Candidate<D>>)
    requires IdsBelow(rows, next) && UniqueIds(rows)
    ensures var (rows', next') := Upsert(rows, next, batch);
            Upsert(rows', next', batch) == (rows', next')
  {
    UpsertFacts(rows, next, batch);
    var (rows', next') := Upsert(rows, next, batch);
    UpsertAllStored(rows', next', batch);
  }

  /** Model::insert: every candidate becomes a new row, ids counting up
      from next. */
  function Appended<D>(next: nat, batch: seq<Candidate<D>>): (r: seq<Row<D>>)
    ensures |r| == |batch|
    ensures forall i :: 0 <= i < |batch| ==> r[i] == Row(next + i, batch[i].name, batch[i].data)
  {
    seq(|batch|, i requires 0 <= i < |batch| => Row(next + i, batch[i].name, batch[i].data))
  }

  // ---------------------------------------------------------------------
  // Collection::merge

  /** Position of the first row with the given id. */
  function IdIndex<D>(rows: seq<Row<D>>, id: nat): (r: Option<nat>)
    ensures r.Some? ==> r.value < |rows| && rows[r.value].id == id
    ensures r.None? ==> forall i :: 0 <= i < |rows| ==> rows[i].id != id
    decreases |rows|
  {
    if rows == [] then None
    else if rows[0].id == id then Some(0)
    else match IdIndex(rows[1..], id)
      case None => None
      case Some(i) => Some(i + 1)
  }

  /** $dictionary[$x->getKey()] = $x: replace the row with x's id in place,
      or append x. */
  function PutById<D>(acc: seq<Row<D>>, x: Row<D>): seq<Row<D>>
  {
    match IdIndex(acc, x.id)
    case Some(i) => acc[i := x]
    case None => acc + [x]
  }

  /** The dictionary built by putting xs in order. */
  function PutAll<D(==)>(xs: seq<Row<D>>): (r: seq<Row<D>>)
    ensures UniqueIds(r)
    ensures forall i :: 0 <= i < |r| ==> r[i] in xs
    decreases |xs|
  {
    if xs == [] then []
    else
      var acc := PutAll(xs[..|xs| - 1]);
      var x := xs[|xs| - 1];
      assert forall i :: 0 <= i < |acc| ==> acc[i] in xs[..|xs| - 1];
      PutById(acc, x)
  }

  /** Eloquent's $existing->merge($new): one row per id, rows of b replacing
      rows of a with the same id. */
  function MergeById<D(==)>(a: seq<Row<D>>, b: seq<Row<D>>): (r: seq<Row<D>>)
    ensures UniqueIds(r)
    ensures forall i :: 0 <= i < |r| ==> r[i] in a + b
  {
    PutAll(a + b)
  }

  lemma {:induction false} PutAllKeeps<D>(xs: seq<Row<D>>, u: seq<Row<D>>)
    requires UniqueIds(u) && forall i :: 0 <= i < |xs| ==> xs[i] in u
    ensures forall i :: 0 <= i < |xs| ==> xs[i] in PutAll(xs)
    decreases |xs|
  {
    if xs != [] {
      var xs' := xs[..|xs| - 1];
      var acc := PutAll(xs');
      var x := xs[|xs| - 1];
      PutAllKeeps(xs', u);
      match IdIndex(acc, x.id) {
        case Some(k) =>
          assert acc[k] in xs' && xs'[..] <= xs;
          SameIdSameRow(u, acc[k], x);
          assert acc[k := x] == acc;
        case None =>
          assert PutAll(xs) == acc + [x];
      }
      forall i | 0 <= i < |xs| ensures xs[i] in PutAll(xs) {
        if i < |xs| - 1 {
          assert xs[i] == xs'[i];
        }
      }
    }
  }

  /** When a and b are read from one table with unique ids, merging them
      loses no row of either. */
  lemma MergeKeepsRows<D>(a: seq<Row<D>>, b: seq<Row<D>>, u: seq<Row<D>>)
    requires UniqueIds(u)
    requires forall i :: 0 <= i < |a| ==> a[i] in u
    requires forall i :: 0 <= i < |b| ==> b[i] in u
    ensures forall x :: x in a || x in b ==> x in MergeById(a, b)
  {
    var ab := a + b;
    forall i | 0 <= i < |ab| ensures ab[i] in u {
      if i >= |a| {
        assert ab[i] == b[i - |a|];
      }
    }
    PutAllKeeps(ab, u);
    forall x | x in a || x in b ensures x in MergeById(a, b) {
      assert x in ab;
    }
  }

  // ---------------------------------------------------------------------
  // Tables

  /** The rows whose name matches one of names, in table order. */
  function NamedRows<D(==)>(rows: seq<Row<D>>, names: seq<string>): (r: seq<Row<D>>)
    ensures forall i :: 0 <= i < |r| ==> r[i] in rows && NameIn(r[i].name, names)
    ensures forall i :: 0 <= i < |rows| && NameIn(rows[i].name, names) ==> rows[i] in r
  {
    Filter(rows, (x: Row<D>) => NameIn(x.name, names))
  }

  class Table<D(==)> {
    var rows: seq<Row<D>>
    var nextId: nat
    /** Every bulk write made to this table, in order. */
    ghost var writes: seq<seq<Candidate<D>>>

    ghost predicate Valid()
      reads this
    {
      IdsBelow(rows, nextId) && UniqueIds(rows)
    }

    constructor ()
      ensures Valid() && rows == [] && writes == []
    {
      rows := [];
      nextId := 1;
      writes := [];
    }

    /** whereIn('name', names)->get(): the stored rows named in names, in
        table order. */
    function FindByNames(names: seq<string>): (r: seq<Row<D>>)
      reads this
    {
      NamedRows(rows, names)
    }

    /** ArtistSaver::saveOrUpdate($batch, ..., table): one bulk write. */
    method SaveOrUpdate(batch: seq<Candidate<D>>)
      requires Valid()
      modifies this
      ensures Valid()
      ensures (rows, nextId) == Upsert(old(rows), old(nextId), batch)
      ensures writes == old(writes) + [batch]
    {
      UpsertFacts(rows, nextId, batch);
      var (rows', next') := Upsert(rows, nextId, batch);
      rows, nextId := rows', next';
      writes := writes + [batch];
    }

    /** Model::insert($batch): one bulk write that adds every row. */
    method Insert(batch: seq<Candidate<D>>)
      requires Valid()
      modifies this
      ensures Valid()
      ensures rows == old(rows) + Appended(old(nextId), batch)
      ensures nextId == old(nextId) + |batch|
      ensures writes == old(writes) + [batch]
    {
      var added := Appended(nextId, batch);
      rows := rows + added;
      nextId := nextId + |batch|;
      writes := writes + [batch];
    }
  }

  // ---------------------------------------------------------------------
  // The genre_artist pivot table

  datatype Link = Link(genreId: nat, artistId: nat)

  ghost predicate NoDuplicates<T>(xs: seq<T>)
  {
    forall i, j :: 0 <= i < j < |xs| ==> xs[i] != xs[j]
  }

  /** saveOrUpdate on the pivot table: each link, in order, is added unless
      the same pair is already there. */
  function AddLinks(links: seq<Link>, batch: seq<Link>): (r: seq<Link>)
    ensures |links| <= |r| <= |links| + |batch|
    ensures r[..|links|] == links
    decreases |batch|
  {
    if batch == [] then links
    else
      var grown := if batch[0] in links then links else links + [batch[0]];
      var r := AddLinks(grown, batch[1..]);
      assert r[..|links|] == r[..|grown|][..|links|];
      r
  }

  lemma {:induction false} AddLinksNoDuplicates(links: seq<Link>, batch: seq<Link>)
    requires NoDuplicates(links)
    ensures NoDuplicates(AddLinks(links, batch))
    decreases |batch|
  {
    if batch != [] {
      var grown := if batch[0] in links then links else links + [batch[0]];
      assert NoDuplicates(grown);
      AddLinksNoDuplicates(grown, batch[1..]);
    }
  }

  lemma {:induction false} AddLinksContents(links: seq<Link>, batch: seq<Link>)
    ensures var r := AddLinks(links, batch);
            && (forall i :: 0 <= i < |batch| ==> batch[i] in r)
            && (forall i :: |links| <= i < |r| ==> r[i] in batch)
    decreases |batch|
  {
    if batch != [] {
      var grown := if batch[0] in links then links else links + [batch[0]];
      AddLinksContents(grown, batch[1..]);
      var r := AddLinks(grown, batch[1..]);
      assert batch[0] in grown;
      assert batch[0] in r by {
        var k :| 0 <= k < |grown| && grown[k] == batch[0];
        assert r[k] == grown[k];
      }
      forall i | 0 <= i < |batch| ensures batch[i] in r {
        if i > 0 { assert batch[i] == batch[1..][i - 1]; }
      }
      forall i | |links| <= i < |r| ensures r[i] in batch {
        if i < |grown| { assert r[i] == grown[i] == batch[0]; }
        else { assert r[i] in batch[1..]; }
      }
    }
  }

  /** Adding links keeps the old ones, never stores a pair twice, stores
      every pair of the batch and nothing else. */
  lemma AddLinksFacts(links: seq<Link>, batch: seq<Link>)
    requires NoDuplicates(links)
    ensures var r := AddLinks(links, batch);
            && NoDuplicates(r) && |links| <= |r| && r[..|links|] == links
            && (forall i :: 0 <= i < |batch| ==> batch[i] in r)
            && (forall i :: |links| <= i < |r| ==> r[i] in batch)
  {
    AddLinksNoDuplicates(links, batch);
    AddLinksContents(links, batch);
  }

  lemma {:induction false} AddLinksPresent(links: seq<Link>, batch: seq<Link>)
    requires forall i :: 0 <= i < |batch| ==> batch[i] in links
    ensures AddLinks(links, batch) == links
    decreases |batch|
  {
    if batch != [] {
      AddLinksPresent(links, batch[1..]);
    }
  }

  /** Attaching the same links twice stores them once. */
  lemma AddLinksIdempotent(links: seq<Link>, batch: seq<Link>)
    requires NoDuplicates(links)
    ensures AddLinks(AddLinks(links, batch), batch) == AddLinks(links, batch)
  {
    AddLinksFacts(links, batch);
    AddLinksPresent(AddLinks(links, batch), batch);
  }

  class LinkTable {
    var links: seq<Link>
    /** Every bulk write made to this table, in order. */
    ghost var writes: seq<seq<Link>>

    ghost predicate Valid()
      reads this
    {
      NoDuplicates(links)
    }

    constructor ()
      ensures Valid() && links == [] && writes == []
    {
      links := [];
      writes := [];
    }

    /** ArtistSaver::saveOrUpdate($pivotInsert, ..., 'genre_artist'). */
    method SaveOrUpdate(batch: seq<Link>)
      requires Valid()
      modifies this
      ensures Valid()
      ensures links == AddLinks(old(links), batch)
      ensures writes == old(writes) + [batch]
    {
      AddLinksFacts(links, batch);
      links := AddLinks(links, batch);
      writes := writes + [batch];
    }
  }
}
