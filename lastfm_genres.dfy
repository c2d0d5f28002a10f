/** The Last.fm genre provider (LastfmGenres): shaping tag lists into
    genres, the artists of a genre with their in-batch dedup by slug, the
    insert-only write of the new ones and the genre/artist pivot rows. */
module LastfmGenres {
  import opened Wrappers
  import opened Text
  import opened Sequences
  import opened Store
  import opened Catalog

  // ---------------------------------------------------------------------
  // Str::slug on ASCII text

  /** The separator, or the one character of PCRE's \s left once
      Str::ascii has deleted everything outside printable ASCII (tabs and
      line breaks included). */
  predicate IsSlugSeparator(c: char)
  {
    c == '-' || c == ' '
  }

  predicate IsAsciiLetterOrDigit(c: char)
  {
    'a' <= c <= 'z' || 'A' <= c <= 'Z' || '0' <= c <= '9'
  }

  /** The characters a slug is made of. */
  predicate IsSlugChar(c: char)
  {
    'a' <= c <= 'z' || '0' <= c <= '9' || c == '-'
  }

  /** '_' becomes the separator, then the text is lower-cased. */
  function SlugChar(c: char): char
  {
    if c == '_' then '-' else LowerChar(c)
  }

  /** The separator, letters, digits and spaces survive; everything else,
      control characters included, is removed. */
  predicate KeptBySlug(c: char)
  {
    IsSlugSeparator(c) || IsAsciiLetterOrDigit(c)
  }

  /** The first two steps of Str::slug: map and filter each character. */
  function SlugKept(s: string): string
    decreases |s|
  {
    if s == [] then []
    else
      var c := SlugChar(s[|s| - 1]);
      SlugKept(s[..|s| - 1]) + (if KeptBySlug(c) then [c] else [])
  }

  lemma {:induction false} SlugKeptShape(s: string)
    ensures forall i :: 0 <= i < |SlugKept(s)| ==> IsSlugSeparator(SlugKept(s)[i]) || IsSlugChar(SlugKept(s)[i])
    decreases |s|
  {
    if s != [] {
      SlugKeptShape(s[..|s| - 1]);
      var c := SlugChar(s[|s| - 1]);
      assert !('A' <= c <= 'Z');
      var r0 := SlugKept(s[..|s| - 1]);
      var r := SlugKept(s);
      assert r == r0 + (if KeptBySlug(c) then [c] else []);
      forall i | 0 <= i < |r| ensures IsSlugSeparator(r[i]) || IsSlugChar(r[i]) {
        if i < |r0| {
          assert r[i] == r0[i];
        }
      }
    }
  }

  /** Every run of separators and spaces becomes a single '-'. */
  function Squeeze(s: string): string
    decreases |s|
  {
    if s == [] then []
    else
      var last := s[|s| - 1];
      var r := Squeeze(s[..|s| - 1]);
      if !IsSlugSeparator(last) then r + [last]
      else if |s| > 1 && IsSlugSeparator(s[|s| - 2]) then r
      else r + ['-']
  }

  lemma {:induction false} SqueezeShape(s: string)
    requires forall i :: 0 <= i < |s| ==> IsSlugSeparator(s[i]) || IsSlugChar(s[i])
    ensures var r := Squeeze(s);
            && (forall i :: 0 <= i < |r| ==> IsSlugChar(r[i]))
            && (forall i :: 0 <= i < |r| - 1 ==> !(r[i] == '-' && r[i + 1] == '-'))
            && (s != [] && IsSlugSeparator(s[|s| - 1]) ==> r != [] && r[|r| - 1] == '-')
            && (s != [] && !IsSlugSeparator(s[|s| - 1]) ==> r != [] && r[|r| - 1] == s[|s| - 1])
    decreases |s|
  {
    if s != [] {
      var init := s[..|s| - 1];
      SqueezeShape(init);
      if |s| > 1 {
        assert init[|init| - 1] == s[|s| - 2];
      }
    }
  }

  /** Str::slug($s) on ASCII text: '_' to '-', lower case, drop all but
      letters, digits, '-' and spaces, squeeze runs of '-' and
      spaces to one '-', and trim '-' at both ends. */
  function Slug(s: string): (r: string)
    ensures r == [] || (r[0] != '-' && r[|r| - 1] != '-')
  {
    TrimShape(Squeeze(SlugKept(s)), {'-'});
    Trim(Squeeze(SlugKept(s)), {'-'})
  }

  /** A slug uses only lower-case letters, digits and single inner
      hyphens. */
  lemma SlugShape(s: string)
    ensures var r := Slug(s);
            && (forall i :: 0 <= i < |r| ==> IsSlugChar(r[i]))
            && (forall i :: 0 <= i < |r| - 1 ==> !(r[i] == '-' && r[i + 1] == '-'))
            && (r == [] || (r[0] != '-' && r[|r| - 1] != '-'))
  {
    var kept := SlugKept(s);
    SlugKeptShape(s);
    SqueezeShape(kept);
    var q := Squeeze(kept);
    var r := Trim(q, {'-'});
    TrimShape(q, {'-'});
    var i := TrimStart(q, {'-'});
    assert forall k :: 0 <= k < |r| ==> r[k] == q[i + k];
  }

  lemma SlugCharByLower(c: char)
    ensures SlugChar(c) == if LowerChar(c) == '_' then '-' else LowerChar(c)
  {
  }

  lemma {:induction false} SlugKeptIgnoresCase(a: string, b: string)
    requires Lower(a) == Lower(b)
    ensures SlugKept(a) == SlugKept(b)
    decreases |a|
  {
    if a != [] {
      assert |a| == |Lower(a)| == |b|;
      var n := |a| - 1;
      assert Lower(a[..n]) == Lower(a)[..n] == Lower(b)[..n] == Lower(b[..n]);
      SlugKeptIgnoresCase(a[..n], b[..n]);
      assert LowerChar(a[n]) == Lower(a)[n] == Lower(b)[n] == LowerChar(b[n]);
      SlugCharByLower(a[n]);
      SlugCharByLower(b[n]);
    }
  }

  /** Names that differ only in letter case have the same slug. */
  lemma SlugIgnoresCase(a: string, b: string)
    requires SameName(a, b)
    ensures Slug(a) == Slug(b)
  {
    SlugKeptIgnoresCase(a, b);
  }

  lemma {:induction false} SlugKeptOfSlug(s: string)
    requires forall i :: 0 <= i < |s| ==> IsSlugChar(s[i])
    ensures SlugKept(s) == s
    decreases |s|
  {
    if s != [] {
      SlugKeptOfSlug(s[..|s| - 1]);
      assert s[..|s| - 1] + [s[|s| - 1]] == s;
    }
  }

  lemma {:induction false} SqueezeOfSlug(s: string)
    requires forall i :: 0 <= i < |s| ==> IsSlugChar(s[i])
    requires forall i :: 0 <= i < |s| - 1 ==> !(s[i] == '-' && s[i + 1] == '-')
    ensures Squeeze(s) == s
    decreases |s|
  {
    if s != [] {
      SqueezeOfSlug(s[..|s| - 1]);
      assert s[..|s| - 1] + [s[|s| - 1]] == s;
    }
  }

  /** Slugging a slug gives it back. */
  lemma SlugIdempotent(s: string)
    ensures Slug(Slug(s)) == Slug(s)
  {
    var t := Slug(s);
    SlugShape(s);
    SlugKeptOfSlug(t);
    SqueezeOfSlug(t);
    TrimUnchanged(t, {'-'});
  }

  /** PHP's !$s on a string: true for "" and for "0". */
  predicate Falsy(s: string)
  {
    s == "" || s == "0"
  }

  /** The test of collectionContainsArtist on two slugs. */
  predicate SlugsMatch(needle: string, other: string)
  {
    Falsy(needle) || Falsy(other) || needle == other
  }

  /** collectionContainsArtist: the collection is not empty and some element
      has the query's slug, or the query's or that element's slug is
      falsy. */
  predicate ContainsBySlug(name: string, names: seq<string>)
    ensures ContainsBySlug(name, names) ==> names != []
    ensures names != [] && Falsy(Slug(name)) ==> ContainsBySlug(name, names)
    decreases |names|
  {
    |names| > 0 && (SlugsMatch(Slug(name), Slug(names[0])) || ContainsBySlug(name, names[1..]))
  }

  /** The same test, as a statement about the elements of the collection. */
  lemma {:induction false} ContainsBySlugMeans(name: string, names: seq<string>)
    ensures ContainsBySlug(name, names) <==>
              exists j :: 0 <= j < |names| && SlugsMatch(Slug(name), Slug(names[j]))
    decreases |names|
  {
    if names != [] {
      ContainsBySlugMeans(name, names[1..]);
      if exists j :: 0 <= j < |names| && SlugsMatch(Slug(name), Slug(names[j])) {
        var j :| 0 <= j < |names| && SlugsMatch(Slug(name), Slug(names[j]));
        if j > 0 {
          assert names[1..][j - 1] == names[j];
        }
      }
      if ContainsBySlug(name, names[1..]) && !SlugsMatch(Slug(name), Slug(names[0])) {
        var j :| 0 <= j < |names[1..]| && SlugsMatch(Slug(name), Slug(names[1..][j]));
        assert names[j + 1] == names[1..][j];
      }
    }
  }

  /** The early-return scan of collectionContainsArtist. */
  method CollectionContainsArtist(name: string, collection: seq<string>) returns (found: bool)
    ensures found == ContainsBySlug(name, collection)
  {
    var k := 0;
    while k < |collection|
      invariant 0 <= k <= |collection|
      invariant ContainsBySlug(name, collection) == ContainsBySlug(name, collection[k..])
    {
      var needle := Slug(name);
      var artistName := Slug(collection[k]);
      if SlugsMatch(needle, artistName) {
        return true;
      }
      assert collection[k..][1..] == collection[k + 1..];
      k := k + 1;
    }
    return false;
  }

  /** A name is contained in any collection that holds it, and containment
      survives growing the collection. */
  lemma ContainsBySlugGrows(name: string, names: seq<string>, more: seq<string>)
    ensures name in names ==> ContainsBySlug(name, names)
    ensures ContainsBySlug(name, names) ==> ContainsBySlug(name, names + more)
  {
    ContainsBySlugMeans(name, names);
    ContainsBySlugMeans(name, names + more);
    if name in names {
      var j :| 0 <= j < |names| && names[j] == name;
      assert SlugsMatch(Slug(name), Slug(names[j]));
    }
    if ContainsBySlug(name, names) {
      var j :| 0 <= j < |names| && SlugsMatch(Slug(name), Slug(names[j]));
      assert (names + more)[j] == names[j];
    }
  }

  /** One name in the collection whose slug is falsy (a name made only of
      punctuation, say) makes the collection contain every name. */
  lemma FalsySlugContainsAll(name: string, names: seq<string>, j: nat)
    requires j < |names| && Falsy(Slug(names[j]))
    ensures ContainsBySlug(name, names)
  {
    ContainsBySlugMeans(name, names);
    assert SlugsMatch(Slug(name), Slug(names[j]));
  }

  /** Containment does not depend on the letter case of the query. */
  lemma ContainsBySlugIgnoresCase(a: string, b: string, names: seq<string>)
    requires SameName(a, b)
    ensures ContainsBySlug(a, names) == ContainsBySlug(b, names)
  {
    SlugIgnoresCase(a, b);
    ContainsBySlugMeans(a, names);
    ContainsBySlugMeans(b, names);
  }

  // ---------------------------------------------------------------------
  // Artists of a genre

  /** The last.fm placeholder artist images. */
  const PlaceholderImages: seq<string> := ["https://lastfm-img2.akamaized.net/i/u/289e0f7b270445e5c550714f606fd8fd.png"]

  /** An artist of tag.gettopartists: its name and the '#text' of each
      image entry (absent when the entry has none). */
  datatype LastfmArtist = LastfmArtist(name: string, images: seq<Option<string>>)

  /** image_small: the fifth image's URL unless it is a placeholder; null
      when there is no fifth image or it has no URL. */
  function SmallImage(images: seq<Option<string>>): (r: Option<string>)
    ensures r.None? <==> |images| <= 4 || images[4].None? || images[4].value in PlaceholderImages
    ensures r.Some? ==> r == images[4] && r.value !in PlaceholderImages
  {
    if |images| > 4 && images[4].Some? && images[4].value !in PlaceholderImages then images[4] else None
  }

  /** The artist row built for a fetched artist. */
  function FormatArtist(a: LastfmArtist): Candidate<ArtistData>
  {
    Candidate(a.name, ArtistData(SmallImage(a.images), 0))
  }

  /** The dedup loop of getGenreArtists as a fold: an artist is added
      unless an artist already added contains it by slug. */
  function Deduped(fetched: seq<LastfmArtist>): (r: seq<Candidate<ArtistData>>)
    ensures |r| <= |fetched|
    decreases |fetched|
  {
    if fetched == [] then []
    else
      var init := fetched[..|fetched| - 1];
      var a := fetched[|fetched| - 1];
      var f := Deduped(init);
      if ContainsBySlug(a.name, CandidateNames(f)) then f else f + [FormatArtist(a)]
  }

  /** The row of every fetched artist, in order. */
  function FormatAll(fetched: seq<LastfmArtist>): (r: seq<Candidate<ArtistData>>)
    ensures |r| == |fetched| && forall j :: 0 <= j < |fetched| ==> r[j] == FormatArtist(fetched[j])
  {
    seq(|fetched|, j requires 0 <= j < |fetched| => FormatArtist(fetched[j]))
  }

  /** Every kept artist is the row of one of the fetched artists. */
  lemma {:induction false} DedupedFromFetched(fetched: seq<LastfmArtist>)
    ensures forall x :: x in Deduped(fetched) ==> x in FormatAll(fetched)
    decreases |fetched|
  {
    if fetched != [] {
      var init := fetched[..|fetched| - 1];
      DedupedFromFetched(init);
      var all := FormatAll(fetched);
      assert FormatAll(init) == all[..|init|];
      assert all[|init|] == FormatArtist(fetched[|fetched| - 1]);
    }
  }

  lemma DedupedSnoc(init: seq<LastfmArtist>, a: LastfmArtist)
    ensures Deduped(init + [a]) ==
              if ContainsBySlug(a.name, CandidateNames(Deduped(init))) then Deduped(init)
              else Deduped(init) + [FormatArtist(a)]
  {
    assert (init + [a])[..|init|] == init;
  }

  /** One more fetched artist, as the loop sees it. */
  lemma DedupedStep(fetched: seq<LastfmArtist>, k: nat)
    requires k < |fetched|
    ensures Deduped(fetched[..k + 1]) ==
              if ContainsBySlug(fetched[k].name, CandidateNames(Deduped(fetched[..k]))) then Deduped(fetched[..k])
              else Deduped(fetched[..k]) + [FormatArtist(fetched[k])]
  {
    assert fetched[..k + 1] == fetched[..k] + [fetched[k]];
    DedupedSnoc(fetched[..k], fetched[k]);
  }

  /** The loop over the fetched artists: formatted and names grow
      together. */
  method DedupArtists(fetched: seq<LastfmArtist>)
    returns (formatted: seq<Candidate<ArtistData>>, names: seq<string>)
    ensures formatted == Deduped(fetched)
    ensures names == CandidateNames(formatted)
  {
    formatted, names := [], [];
    for k := 0 to |fetched|
      invariant formatted == Deduped(fetched[..k])
      invariant names == CandidateNames(formatted)
    {
      var artist := fetched[k];
      var contained := CollectionContainsArtist(artist.name, names);
      DedupedStep(fetched, k);
      if !contained {
        var row := FormatArtist(artist);
        CandidateNamesSnoc(formatted, row);
        formatted := formatted + [row];
        names := names + [artist.name];
      }
    }
    assert fetched[..|fetched|] == fetched;
  }

  lemma {:induction false} DedupedPrefix(fetched: seq<LastfmArtist>, n: nat)
    requires n <= |fetched|
    ensures |Deduped(fetched[..n])| <= |Deduped(fetched)|
    ensures Deduped(fetched) [..|Deduped(fetched[..n])|] == Deduped(fetched[..n])
    decreases |fetched| - n
  {
    if n < |fetched| {
      var init := fetched[..|fetched| - 1];
      assert init[..n] == fetched[..n];
      DedupedPrefix(init, n);
    } else {
      assert fetched[..n] == fetched;
    }
  }

  /** No artist is kept when an artist kept before it already contains
      it by slug. */
  lemma {:induction false} DedupedNoneContained(fetched: seq<LastfmArtist>)
    ensures forall i :: 0 <= i < |Deduped(fetched)| ==>
              !ContainsBySlug(Deduped(fetched)[i].name, CandidateNames(Deduped(fetched)[..i]))
    decreases |fetched|
  {
    if fetched != [] {
      var init := fetched[..|fetched| - 1];
      DedupedNoneContained(init);
      var f := Deduped(init);
      var r := Deduped(fetched);
      forall i | 0 <= i < |r| ensures !ContainsBySlug(r[i].name, CandidateNames(r[..i])) {
        if i < |f| {
          assert r[..i] == f[..i] && r[i] == f[i];
        } else {
          var a := fetched[|fetched| - 1];
          assert r == f + [FormatArtist(a)];
          assert r[..i] == f && r[i].name == a.name;
        }
      }
    }
  }

  /** Every fetched artist is contained by slug in the kept artists. */
  lemma {:induction false} DedupedCovers(fetched: seq<LastfmArtist>)
    ensures forall i :: 0 <= i < |fetched| ==> ContainsBySlug(fetched[i].name, CandidateNames(Deduped(fetched)))
    decreases |fetched|
  {
    if fetched != [] {
      var init := fetched[..|fetched| - 1];
      DedupedCovers(init);
      var a := fetched[|fetched| - 1];
      DedupedStepCovers(init, a);
      assert init + [a] == fetched;
      forall i | 0 <= i < |fetched| ensures ContainsBySlug(fetched[i].name, CandidateNames(Deduped(fetched))) {
        if i < |init| {
          assert init[i] == fetched[i];
        }
      }
    }
  }

  lemma DedupedStepCovers(init: seq<LastfmArtist>, a: LastfmArtist)
    ensures var f := Deduped(init);
            var r := Deduped(init + [a]);
            && ContainsBySlug(a.name, CandidateNames(r))
            && forall x :: ContainsBySlug(x, CandidateNames(f)) ==> ContainsBySlug(x, CandidateNames(r))
  {
    var fetched := init + [a];
    assert fetched[..|fetched| - 1] == init;
    var f := Deduped(init);
    var r := Deduped(fetched);
    var nf := CandidateNames(f);
    var nr := CandidateNames(r);
    var ext := nr[|nf|..];
    assert nr == nf + ext;
    forall x | ContainsBySlug(x, nf) ensures ContainsBySlug(x, nr) {
      ContainsBySlugGrows(x, nf, ext);
    }
    if !ContainsBySlug(a.name, nf) {
      assert nr[|nf|] == a.name;
      ContainsBySlugGrows(a.name, nr, []);
    }
  }

  /** The first fetched artist is always kept, first. */
  lemma DedupedKeepsFirst(fetched: seq<LastfmArtist>)
    requires fetched != []
    ensures Deduped(fetched) != [] && Deduped(fetched)[0] == FormatArtist(fetched[0])
  {
    DedupedPrefix(fetched, 1);
    var one := fetched[..1];
    assert one[..0] == [];
    assert Deduped(one) == [FormatArtist(fetched[0])];
  }

  /** The array_filter of getGenreArtists: the formatted artists that no
      existing artist contains by slug, in their original order. */
  function ToInsert(formatted: seq<Candidate<ArtistData>>, existing: seq<Row<ArtistData>>): (r: seq<Candidate<ArtistData>>)
    ensures forall i :: 0 <= i < |r| ==> r[i] in formatted && !ContainsBySlug(r[i].name, RowNames(existing))
    ensures forall i :: 0 <= i < |formatted| && !ContainsBySlug(formatted[i].name, RowNames(existing)) ==> formatted[i] in r
  {
    Filter(formatted, (c: Candidate<ArtistData>) => !ContainsBySlug(c.name, RowNames(existing)))
  }

  /** With no existing artist, every formatted artist is inserted. */
  lemma ToInsertNoExisting(formatted: seq<Candidate<ArtistData>>)
    ensures ToInsert(formatted, []) == formatted
  {
    FilterAll(formatted, (c: Candidate<ArtistData>) => !ContainsBySlug(c.name, RowNames<ArtistData>([])));
  }

  /** Containment carries over to any collection holding every name of
      the original one. */
  lemma ContainsBySlugSubset(name: string, names: seq<string>, more: seq<string>)
    requires forall i :: 0 <= i < |names| ==> names[i] in more
    ensures ContainsBySlug(name, names) ==> ContainsBySlug(name, more)
  {
    ContainsBySlugMeans(name, names);
    ContainsBySlugMeans(name, more);
    if ContainsBySlug(name, names) {
      var j :| 0 <= j < |names| && SlugsMatch(Slug(name), Slug(names[j]));
      var k :| 0 <= k < |more| && more[k] == names[j];
    }
  }

  /** After the insert, the artists read back by name contain every
      formatted artist by slug: either the row just inserted for it or the
      existing row that contained it. */
  lemma GenreArtistsCover(formatted: seq<Candidate<ArtistData>>, rows: seq<Row<ArtistData>>, next: nat)
    ensures var names := CandidateNames(formatted);
            var existing := NamedRows(rows, names);
            var rows' := rows + Appended(next, ToInsert(formatted, existing));
            forall i :: 0 <= i < |formatted| ==> ContainsBySlug(formatted[i].name, RowNames(NamedRows(rows', names)))
  {
    var names := CandidateNames(formatted);
    var existing := NamedRows(rows, names);
    var batch := ToInsert(formatted, existing);
    var added := Appended(next, batch);
    var result := NamedRows(rows + added, names);
    ExistingStaysNamed(rows, added, names);
    forall i | 0 <= i < |formatted| ensures ContainsBySlug(formatted[i].name, RowNames(result)) {
      var c := formatted[i];
      if ContainsBySlug(c.name, RowNames(existing)) {
        ContainsBySlugSubset(c.name, RowNames(existing), RowNames(result));
      } else {
        assert names[i] == c.name;
        InsertedIsNamed(rows, next, batch, names, c);
        ContainsBySlugGrows(c.name, RowNames(result), []);
      }
    }
  }

  /** A stored row with a wanted name is still found after the insert. */
  lemma ExistingStaysNamed(rows: seq<Row<ArtistData>>, added: seq<Row<ArtistData>>, names: seq<string>)
    ensures forall i :: 0 <= i < |NamedRows(rows, names)| ==>
              RowNames(NamedRows(rows, names))[i] in RowNames(NamedRows(rows + added, names))
  {
    var existing := NamedRows(rows, names);
    var result := NamedRows(rows + added, names);
    forall i | 0 <= i < |existing| ensures RowNames(existing)[i] in RowNames(result) {
      var e := existing[i];
      var k :| 0 <= k < |rows| && rows[k] == e;
      assert (rows + added)[k] == e;
      var m :| 0 <= m < |result| && result[m] == e;
      assert RowNames(result)[m] == e.name;
    }
  }

  /** An inserted candidate with a wanted name is found after the insert. */
  lemma InsertedIsNamed(rows: seq<Row<ArtistData>>, next: nat, batch: seq<Candidate<ArtistData>>,
                        names: seq<string>, c: Candidate<ArtistData>)
    requires c in batch && c.name in names
    ensures c.name in RowNames(NamedRows(rows + Appended(next, batch), names))
  {
    var added := Appended(next, batch);
    var result := NamedRows(rows + added, names);
    var j :| 0 <= j < |batch| && batch[j] == c;
    var row := added[j];
    assert (rows + added)[|rows| + j] == row && row.name == c.name;
    var m :| 0 <= m < |result| && result[m] == row;
    assert RowNames(result)[m] == c.name;
  }

  /** The pivot rows of attachGenre as a value. */
  function PivotRows(genreId: nat, artists: seq<Row<ArtistData>>): (r: seq<Link>)
    ensures |r| == |artists|
    ensures forall i :: 0 <= i < |artists| ==> r[i] == Link(genreId, artists[i].id)
  {
    seq(|artists|, i requires 0 <= i < |artists| => Link(genreId, artists[i].id))
  }

  /** The loop of attachGenre: one {genre_id, artist_id} row per artist,
      in artist order. */
  method BuildPivotRows(genreId: nat, artists: seq<Row<ArtistData>>) returns (pivot: seq<Link>)
    ensures pivot == PivotRows(genreId, artists)
  {
    pivot := [];
    for k := 0 to |artists|
      invariant pivot == PivotRows(genreId, artists[..k])
    {
      pivot := pivot + [Link(genreId, artists[k].id)];
    }
    assert artists[..|artists|] == artists;
  }

  /** After the pivot write, the genre is linked to every artist, and a
      second attachGenre with the same artists adds nothing. */
  lemma AttachGenreLinksAll(links: seq<Link>, genreId: nat, artists: seq<Row<ArtistData>>)
    requires NoDuplicates(links)
    ensures var after := AddLinks(links, PivotRows(genreId, artists));
            && NoDuplicates(after)
            && (forall i :: 0 <= i < |artists| ==> Link(genreId, artists[i].id) in after)
            && AddLinks(after, PivotRows(genreId, artists)) == after
  {
    var pivot := PivotRows(genreId, artists);
    AddLinksFacts(links, pivot);
    AddLinksIdempotent(links, pivot);
    forall i | 0 <= i < |artists| ensures Link(genreId, artists[i].id) in AddLinks(links, pivot) {
      assert pivot[i] == Link(genreId, artists[i].id);
    }
  }

  /** attachGenre: one saveOrUpdate of the pivot rows. */
  method AttachGenre(artists: seq<Row<ArtistData>>, genreId: nat, links: LinkTable)
    requires links.Valid()
    modifies links
    ensures links.Valid()
    ensures links.links == AddLinks(old(links.links), PivotRows(genreId, artists))
    ensures links.writes == old(links.writes) + [PivotRows(genreId, artists)]
    ensures forall i :: 0 <= i < |artists| ==> Link(genreId, artists[i].id) in links.links
  {
    var pivot := BuildPivotRows(genreId, artists);
    AttachGenreLinksAll(links.links, genreId, artists);
    links.SaveOrUpdate(pivot);
  }

  /** getGenreArtists for a genre with the given id, given the artists
      last.fm returned for it: dedup, one insert of the artists that do not
      exist yet, the read-back by name and the pivot write. */
  method GetGenreArtists(genreId: nat, fetched: seq<LastfmArtist>, store: Table<ArtistData>, links: LinkTable)
    returns (artists: seq<Row<ArtistData>>)
    requires store.Valid() && links.Valid()
    modifies store, links
    ensures store.Valid() && links.Valid()
    ensures var formatted := Deduped(fetched);
            var names := CandidateNames(formatted);
            var batch := ToInsert(formatted, NamedRows(old(store.rows), names));
            && store.writes == old(store.writes) + [batch]
            && store.rows == old(store.rows) + Appended(old(store.nextId), batch)
            && artists == NamedRows(store.rows, names)
    ensures forall i :: 0 <= i < |Deduped(fetched)| ==>
              ContainsBySlug(Deduped(fetched)[i].name, RowNames(artists))
    ensures store.nextId == old(store.nextId)
              + |ToInsert(Deduped(fetched), NamedRows(old(store.rows), CandidateNames(Deduped(fetched))))|
    ensures links.links == AddLinks(old(links.links), PivotRows(genreId, artists))
    ensures links.writes == old(links.writes) + [PivotRows(genreId, artists)]
    ensures forall i :: 0 <= i < |artists| ==> Link(genreId, artists[i].id) in links.links
  {
    var formatted, names := DedupArtists(fetched);
    var existing := store.FindByNames(names);
    var insert := ToInsert(formatted, existing);
    GenreArtistsCover(formatted, store.rows, store.nextId);
    store.Insert(insert);
    artists := store.FindByNames(names);
    AttachGenre(artists, genreId, links);
  }

  // ---------------------------------------------------------------------
  // formatGenres and the genre image path

  const GenreImageDir: string := "assets/images/genres/"
  const GenreImageExt: string := ".jpg"

  /** str_replace(' ', '-', $s). */
  function Hyphenate(s: string): (r: string)
    ensures |r| == |s|
    ensures forall i :: 0 <= i < |s| ==> r[i] == if s[i] == ' ' then '-' else s[i]
  {
    seq(|s|, i requires 0 <= i < |s| => if s[i] == ' ' then '-' else s[i])
  }

  /** The middle of a genre's image path. */
  function GenreImageStem(name: string): string
  {
    Hyphenate(Lower(PhpTrim(name)))
  }

  /** getLocalImagePath without the url()/secure_url() wrapping: the
      trimmed, lower-cased name, spaces turned into hyphens, inside
      'assets/images/genres/' and '.jpg'. The path holds no space. */
  function GenreImagePath(name: string): (r: string)
    ensures |r| == |GenreImageDir| + |PhpTrim(name)| + |GenreImageExt|
    ensures ' ' !in r
  {
    var stem := GenreImageStem(name);
    assert forall i :: 0 <= i < |stem| ==> stem[i] != ' ';
    GenreImageDir + stem + GenreImageExt
  }

  /** The path is the directory, the stem and the extension, and holds
      no space. */
  lemma GenreImagePathShape(name: string)
    ensures var r := GenreImagePath(name);
            && |r| == |GenreImageDir| + |PhpTrim(name)| + |GenreImageExt|
            && r[..|GenreImageDir|] == GenreImageDir
            && r[|r| - |GenreImageExt|..] == GenreImageExt
            && r[|GenreImageDir|..|r| - |GenreImageExt|] == GenreImageStem(name)
            && ' ' !in r
  {
    var stem := GenreImageStem(name);
    var r := GenreImageDir + stem + GenreImageExt;
    assert r[..|GenreImageDir|] == GenreImageDir;
    assert r[|GenreImageDir|..|r| - |GenreImageExt|] == stem;
    assert r[|r| - |GenreImageExt|..] == GenreImageExt;
    assert forall i :: 0 <= i < |stem| ==> stem[i] != ' ';
  }

  /** Two names share an image path exactly when their stems agree. */
  lemma GenreImagePathStems(a: string, b: string)
    ensures GenreImagePath(a) == GenreImagePath(b) <==> GenreImageStem(a) == GenreImageStem(b)
  {
    GenreImagePathShape(a);
    GenreImagePathShape(b);
    if GenreImagePath(a) == GenreImagePath(b) {
      var p := GenreImagePath(a);
      assert GenreImageStem(a) == p[|GenreImageDir|..|p| - |GenreImageExt|] == GenreImageStem(b);
    }
  }

  /** Trimming and lower-casing a name without '-' adds none. */
  lemma LowerTrimHyphenFree(s: string)
    requires '-' !in s
    ensures '-' !in Lower(PhpTrim(s))
  {
    TrimShape(s, PhpWhitespace);
    var t := PhpTrim(s);
    forall i | 0 <= i < |t| ensures Lower(t)[i] != '-' {
      assert t[i] == s[TrimStart(s, PhpWhitespace) + i];
    }
  }

  /** Two names without hyphens share an image path exactly when they
      agree once trimmed and lower-cased. */
  lemma GenreImagePathInjective(a: string, b: string)
    requires '-' !in a && '-' !in b
    ensures GenreImagePath(a) == GenreImagePath(b) <==> Lower(PhpTrim(a)) == Lower(PhpTrim(b))
  {
    GenreImagePathStems(a, b);
    var x, y := Lower(PhpTrim(a)), Lower(PhpTrim(b));
    LowerTrimHyphenFree(a);
    LowerTrimHyphenFree(b);
    if Hyphenate(x) == Hyphenate(y) {
      forall i | 0 <= i < |x| ensures x[i] == y[i] {
        assert Hyphenate(x)[i] == Hyphenate(y)[i];
      }
    }
  }

  /** A space and a hyphen in the same place give the same path: "Hip Hop"
      and "hip-hop" share one image. */
  lemma GenreImagePathSpaceHyphenClash()
    ensures GenreImagePath("Hip Hop") == GenreImagePath("hip-hop")
  {
    TrimUnchanged("Hip Hop", PhpWhitespace);
    TrimUnchanged("hip-hop", PhpWhitespace);
    assert Hyphenate(Lower("Hip Hop")) == "hip-hop";
    assert Hyphenate(Lower("hip-hop")) == "hip-hop";
  }

  /** Surrounding whitespace does not change the path. */
  lemma GenreImagePathTrimmed(name: string)
    ensures GenreImagePath(PhpTrim(name)) == GenreImagePath(name)
  {
    TrimShape(name, PhpWhitespace);
    TrimUnchanged(PhpTrim(name), PhpWhitespace);
  }

  /** An element of a tag list: an array with name and count, or a plain
      string. */
  datatype TagItem = Tag(name: string, count: int) | Plain(text: string)

  /** formatGenres' argument: a list or a comma-separated string. */
  datatype GenreInput = GenreList(items: seq<TagItem>) | GenreCsv(text: string)

  datatype FormattedGenre = FormattedGenre(name: string, popularity: int, image: string)

  /** An entry of formatGenres' names: {name} for an array item, or an
      element of the input itself once a plain string reset the list. */
  datatype NameEntry = NameOnly(name: string) | RawItem(item: TagItem)

  /** The list formatGenres iterates: explode(',', ...) of a string. */
  function Items(input: GenreInput): (items: seq<TagItem>)
    ensures input.GenreCsv? ==>
              var parts := Split(input.text, ',');
              |items| == |parts| && forall i :: 0 <= i < |parts| ==> items[i] == Plain(parts[i])
  {
    match input
    case GenreList(items) => items
    case GenreCsv(text) =>
      var parts := Split(text, ',');
      seq(|parts|, i requires 0 <= i < |parts| => Plain(parts[i]))
  }

  function FormatItem(item: TagItem): FormattedGenre
  {
    match item
    case Tag(name, count) => FormattedGenre(name, count, GenreImagePath(name))
    case Plain(text) => FormattedGenre(PhpTrim(text), 0, GenreImagePath(PhpTrim(text)))
  }

  function RawItems(items: seq<TagItem>): (r: seq<NameEntry>)
    ensures |r| == |items| && forall i :: 0 <= i < |items| ==> r[i] == RawItem(items[i])
  {
    seq(|items|, i requires 0 <= i < |items| => RawItem(items[i]))
  }

  /** names after the first k items: an array item appends {name}, a plain
      string sets names to the whole input list. */
  function NamesUpTo(items: seq<TagItem>, k: nat): seq<NameEntry>
    requires k <= |items|
  {
    if k == 0 then []
    else
      match items[k - 1]
      case Tag(name, _) => NamesUpTo(items, k - 1) + [NameOnly(name)]
      case Plain(_) => RawItems(items)
  }

  /** formatGenres: one formatted genre per item, in order, and its names. */
  method FormatGenres(input: GenreInput) returns (formatted: seq<FormattedGenre>, names: seq<NameEntry>)
    ensures var items := Items(input);
            |formatted| == |items| && forall i :: 0 <= i < |items| ==> formatted[i] == FormatItem(items[i])
    ensures names == NamesUpTo(Items(input), |Items(input)|)
  {
    var genres := Items(input);
    formatted, names := [], [];
    for k := 0 to |genres|
      invariant |formatted| == k && forall i :: 0 <= i < k ==> formatted[i] == FormatItem(genres[i])
      invariant names == NamesUpTo(genres, k)
    {
      match genres[k]
      case Tag(name, count) =>
        formatted := formatted + [FormattedGenre(name, count, GenreImagePath(name))];
        names := names + [NameOnly(name)];
      case Plain(text) =>
        var genre := PhpTrim(text);
        formatted := formatted + [FormattedGenre(genre, 0, GenreImagePath(genre))];
        names := RawItems(genres);
    }
  }

  /** A comma-separated string gives one genre per part, trimmed, with
      popularity 0, and names is the untrimmed list of parts. */
  lemma FormatGenresCsv(text: string)
    ensures var parts := Split(text, ',');
            var items := Items(GenreCsv(text));
            && NamesUpTo(items, |items|) == RawItems(items)
            && forall i :: 0 <= i < |parts| ==>
                 FormatItem(items[i]) == FormattedGenre(PhpTrim(parts[i]), 0, GenreImagePath(PhpTrim(parts[i])))
  {
    var items := Items(GenreCsv(text));
    assert items[|items| - 1].Plain?;
  }

  /** A list of array items gives one {name} entry per item, in order. */
  lemma {:induction false} FormatGenresAllTags(items: seq<TagItem>, k: nat)
    requires k <= |items|
    requires forall i :: 0 <= i < |items| ==> items[i].Tag?
    ensures NamesUpTo(items, k) == seq(k, i requires 0 <= i < k => NameOnly(items[i].name))
    decreases k
  {
    if k > 0 {
      FormatGenresAllTags(items, k - 1);
    }
  }
}
