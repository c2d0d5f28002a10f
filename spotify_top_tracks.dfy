/** The Spotify daily-chart import (SpotifyTopTracks): take the track ids
    of ranks 1 to 50 from the chart feed, then save the tracks' artists,
    albums and the tracks themselves, each with one bulk write, and hand
    the tracks back in chart order. */
module SpotifyTopTracks {
  import opened Wrappers
  import opened Text
  import opened Sequences
  import opened Store
  import opened Catalog

  // ---------------------------------------------------------------------
  // Chart feed

  const TrackMarker: string := "/track/"

  /** Only ranks 1 to MaxRank of the feed are read. */
  const MaxRank: nat := 50

  function Min(a: int, b: int): int
  {
    if a <= b then a else b
  }

  /** "/track/" starts at p and at least one character follows it. */
  predicate MarkerAt(line: string, p: nat)
  {
    p + |TrackMarker| < |line| && line[p..p + |TrackMarker|] == TrackMarker
  }

  /** The text after the first marker at or after position from. */
  function FindMarker(line: string, from: nat): (r: Option<string>)
    ensures r.None? <==> forall p :: from <= p ==> !MarkerAt(line, p)
    ensures r.Some? ==> exists p :: from <= p && MarkerAt(line, p)
                                 && r.value == line[p + |TrackMarker|..]
                                 && forall q :: from <= q < p ==> !MarkerAt(line, q)
    decreases |line| - from
  {
    if from + |TrackMarker| >= |line| then None
    else if MarkerAt(line, from) then Some(line[from + |TrackMarker|..])
    else FindMarker(line, from + 1)
  }

  /** preg_match('/.+?\/track\/(.+)/', $line): the lazy prefix takes at
      least one character, so the marker must start at position 1 or later
      and be followed by at least one character; the group is the rest of
      the line after the first such marker. */
  function MatchTrackId(line: string): (r: Option<string>)
    ensures r.None? <==> forall p :: 1 <= p ==> !MarkerAt(line, p)
    ensures r.Some? ==> exists p :: 1 <= p && MarkerAt(line, p)
                                 && r.value == line[p + |TrackMarker|..]
                                 && forall q :: 1 <= q < p ==> !MarkerAt(line, q)
    ensures r.Some? ==> r.value != []
  {
    FindMarker(line, 1)
  }

  /** The id a line contributes: none, or the one it matches. */
  function LineId(line: string): (r: seq<string>)
    ensures |r| <= 1 && forall i :: 0 <= i < |r| ==> r[i] != []
  {
    match MatchTrackId(line)
    case Some(id) => [id]
    case None => []
  }

  /** The ids that the given lines contribute, in line order. */
  function LineIds(lines: seq<string>): (ids: seq<string>)
    ensures |ids| <= |lines|
    ensures forall i :: 0 <= i < |ids| ==> ids[i] != []
    decreases |lines|
  {
    if lines == [] then []
    else
      LineIds(lines[..|lines| - 1]) + LineId(lines[|lines| - 1])
  }

  /** The ids of the feed: the header line (rank 0) and every line after
      rank MaxRank are skipped. */
  function ChartIds(lines: seq<string>): seq<string>
  {
    if |lines| <= 1 then [] else LineIds(lines[1..Min(|lines|, MaxRank + 1)])
  }

  /** $ids .= $matches[1].',' for each id. */
  function CommaTerminated(ids: seq<string>): (r: string)
    decreases |ids|
  {
    if ids == [] then []
    else CommaTerminated(ids[..|ids| - 1]) + ids[|ids| - 1] + [',']
  }

  lemma CommaTerminatedSnoc(ids: seq<string>, id: string)
    ensures CommaTerminated(ids + [id]) == CommaTerminated(ids) + id + ","
  {
    assert (ids + [id])[..|ids|] == ids;
  }

  /** The per-line step of the loop below. */
  lemma LineIdsStep(lines: seq<string>, k: nat)
    requires 1 <= k < |lines|
    ensures CommaTerminated(LineIds(lines[1..k + 1]))
            == CommaTerminated(LineIds(lines[1..k]))
               + (match MatchTrackId(lines[k]) case Some(id) => id + "," case None => "")
  {
    var w := lines[1..k + 1];
    assert w[..|w| - 1] == lines[1..k];
    assert w[|w| - 1] == lines[k];
    assert LineIds(w) == LineIds(lines[1..k]) + LineId(lines[k]);
    if MatchTrackId(lines[k]).Some? {
      CommaTerminatedSnoc(LineIds(lines[1..k]), MatchTrackId(lines[k]).value);
    } else {
      assert LineIds(w) == LineIds(lines[1..k]);
    }
  }

  /** The feed's ids depend only on the lines of rank 1 to MaxRank: neither
      the header nor anything after rank MaxRank contributes. */
  lemma ChartIdsWindow(header: string, ranked: seq<string>, tail: seq<string>)
    requires |ranked| <= MaxRank
    requires tail != [] ==> |ranked| == MaxRank
    ensures ChartIds([header] + ranked + tail) == LineIds(ranked)
    ensures |ChartIds([header] + ranked + tail)| <= MaxRank
  {
    var lines := [header] + ranked + tail;
    if ranked != [] {
      assert lines[1..Min(|lines|, MaxRank + 1)] == ranked;
    }
  }

  lemma {:induction false} CommaTerminatedJoin(ids: seq<string>)
    requires |ids| >= 1
    ensures CommaTerminated(ids) == Join(ids, ",") + ","
    decreases |ids|
  {
    if |ids| > 1 {
      var init := ids[..|ids| - 1];
      CommaTerminatedJoin(init);
      JoinSnoc(init, ids[|ids| - 1], ",");
      assert init + [ids[|ids| - 1]] == ids;
    }
  }

  lemma {:induction false} JoinEnds(ids: seq<string>, sep: string)
    requires |ids| >= 1 && ids[0] != [] && ids[|ids| - 1] != []
    ensures var j := Join(ids, sep);
            j != [] && j[0] == ids[0][0] && j[|j| - 1] == ids[|ids| - 1][|ids[|ids| - 1]| - 1]
  {
    if |ids| > 1 {
      var init := ids[..|ids| - 1];
      JoinSnoc(init, ids[|ids| - 1], sep);
      assert init + [ids[|ids| - 1]] == ids;
      assert Join(ids, sep) == ids[0] + sep + Join(ids[1..], sep);
    }
  }

  /** trim($ids, ',') is the comma-separated list of the ids, with no
      trailing comma, when the first id does not start and the last id does
      not end with a comma. */
  lemma TrimmedIdsAreJoined(ids: seq<string>)
    requires forall i :: 0 <= i < |ids| ==> ids[i] != []
    requires ids != [] ==> ids[0][0] != ',' && ids[|ids| - 1][|ids[|ids| - 1]| - 1] != ','
    ensures Trim(CommaTerminated(ids), {','}) == Join(ids, ",")
  {
    if ids != [] {
      CommaTerminatedJoin(ids);
      JoinEnds(ids, ",");
      var j := Join(ids, ",");
      var s := j + ",";
      assert TrimLeft(s, {','}) == s;
      assert s[..|s| - 1] == j;
      assert TrimRight(s, {','}) == TrimRight(j, {','}) == j;
    }
  }

  /** Where the loop below stops, the lines it has read are the chart. */
  lemma LoopCoversChart(split: seq<string>, k: nat)
    requires k <= |split| && k <= MaxRank + 1
    requires k == |split| || k == MaxRank + 1
    ensures LineIds(split[Min(1, k)..k]) == ChartIds(split)
  {
    if |split| > 1 {
      assert split[Min(1, k)..k] == split[1..Min(|split|, MaxRank + 1)];
    }
  }

  /** The loop of getTopTracks over the feed's lines and the final
      trim($ids, ','). */
  method ExtractTrackIds(csv: string) returns (ids: string)
    ensures ids == Trim(CommaTerminated(ChartIds(Split(csv, '\n'))), {','})
  {
    var split := Split(csv, '\n');
    var acc := "";
    var k := 0;
    while k < |split|
      invariant 0 <= k <= |split| && k <= MaxRank + 1
      invariant acc == CommaTerminated(LineIds(split[Min(1, k)..k]))
    {
      if k == 0 {
        k := k + 1;
        continue;
      }
      if k > MaxRank {
        break;
      }
      var m := MatchTrackId(split[k]);
      LineIdsStep(split, k);
      if m.Some? {
        acc := acc + (m.value + ",");
      }
      k := k + 1;
    }
    LoopCoversChart(split, k);
    ids := Trim(acc, {','});
  }

  // ---------------------------------------------------------------------
  // Name matching

  /** getItemId's answer: the id of the first item whose lower-cased name
      equals the lower-cased query, or null. */
  function FirstMatchId<D>(name: string, items: seq<Row<D>>): (r: Option<nat>)
    ensures r.None? <==> !HasName(items, name)
    ensures r.Some? ==> exists i :: 0 <= i < |items| && SameName(items[i].name, name)
                                 && r.value == items[i].id
                                 && forall j :: 0 <= j < i ==> !SameName(items[j].name, name)
    decreases |items|
  {
    if items == [] then None
    else if SameName(items[0].name, name) then Some(items[0].id)
    else
      var r := FirstMatchId(name, items[1..]);
      assert forall i :: 1 <= i < |items| ==> items[i] == items[1..][i - 1];
      r
  }

  method GetItemId<D>(name: string, items: seq<Row<D>>) returns (r: Option<nat>)
    ensures r == FirstMatchId(name, items)
  {
    var k := 0;
    while k < |items|
      invariant 0 <= k <= |items|
      invariant FirstMatchId(name, items) == FirstMatchId(name, items[k..])
    {
      if Lower(name) == Lower(items[k].name) {
        return Some(items[k].id);
      }
      assert items[k..][1..] == items[k + 1..];
      k := k + 1;
    }
    return None;
  }

  /** inArray: true exactly when some item's lower-cased name equals the
      lower-cased query. */
  method InArray<D>(name: string, items: seq<Row<D>>) returns (found: bool)
    ensures found == HasName(items, name)
  {
    var k := 0;
    while k < |items|
      invariant 0 <= k <= |items|
      invariant forall j :: 0 <= j < k ==> !SameName(items[j].name, name)
    {
      if Lower(name) == Lower(items[k].name) {
        return true;
      }
      k := k + 1;
    }
    return false;
  }

  // ---------------------------------------------------------------------
  // Existing/new partition and the single bulk write

  /** The candidates that match no existing row. */
  function Unmatched<D(==)>(candidates: seq<Candidate<D>>, existing: seq<Row<D>>): seq<Candidate<D>>
  {
    Filter(candidates, (c: Candidate<D>) => !HasName(existing, c.name))
  }

  /** The unset()/$toFetch[] loop of saveArtists and saveAlbums: each
      candidate is dropped when it matches an existing row and otherwise
      kept, with its name added to the names to fetch again. */
  method Partition<D(==)>(candidates: seq<Candidate<D>>, existing: seq<Row<D>>)
    returns (kept: seq<Candidate<D>>, toFetch: seq<string>)
    ensures kept == Unmatched(candidates, existing)
    ensures forall i :: 0 <= i < |candidates| ==>
              (candidates[i] in kept <==> !HasName(existing, candidates[i].name))
    ensures toFetch == CandidateNames(kept)
  {
    kept, toFetch := [], [];
    var k := 0;
    while k < |candidates|
      invariant 0 <= k <= |candidates|
      invariant kept == Unmatched(candidates[..k], existing)
      invariant toFetch == CandidateNames(kept)
    {
      var matched := InArray(candidates[k].name, existing);
      assert candidates[..k + 1][..k] == candidates[..k];
      if !matched {
        kept := kept + [candidates[k]];
        toFetch := toFetch + [candidates[k].name];
      }
      k := k + 1;
    }
    assert candidates[..k] == candidates;
  }

  /** A candidate is covered after the write: by the existing row that
      matched it, or by the row written for it and read back by name. */
  lemma CandidateCovered<D>(c: Candidate<D>, batch: seq<Candidate<D>>, existing: seq<Row<D>>,
                            rows': seq<Row<D>>, resolved: seq<Row<D>>)
    requires HasName(existing, c.name) || c in batch
    requires forall i :: 0 <= i < |batch| ==> HasName(rows', batch[i].name)
    requires forall x :: x in existing ==> x in resolved
    requires forall i :: 0 <= i < |rows'| && NameIn(rows'[i].name, CandidateNames(batch)) ==> rows'[i] in resolved
    ensures HasName(resolved, c.name)
  {
    var y: Row<D>;
    if HasName(existing, c.name) {
      var e :| 0 <= e < |existing| && SameName(existing[e].name, c.name);
      y := existing[e];
      assert y in existing;
    } else {
      var j :| 0 <= j < |batch| && batch[j] == c;
      assert HasName(rows', batch[j].name);
      var r :| 0 <= r < |rows'| && SameName(rows'[r].name, c.name);
      y := rows'[r];
      assert CandidateNames(batch)[j] == c.name;
      assert NameIn(y.name, CandidateNames(batch));
    }
    assert y in resolved && SameName(y.name, c.name);
    var w :| 0 <= w < |resolved| && resolved[w] == y;
  }

  /** After the bulk write of the unmatched candidates, merging the existing
      rows with the rows read back by name gives stored rows that cover
      every candidate's name. */
  lemma ReconcileCovers<D>(candidates: seq<Candidate<D>>, existing: seq<Row<D>>, rows: seq<Row<D>>, next: nat)
    requires IdsBelow(rows, next) && UniqueIds(rows)
    requires forall i :: 0 <= i < |existing| ==> existing[i] in rows
    ensures var batch := Unmatched(candidates, existing);
            var rows' := Upsert(rows, next, batch).0;
            var resolved := MergeById(existing, NamedRows(rows', CandidateNames(batch)));
            && (forall i :: 0 <= i < |resolved| ==> resolved[i] in rows')
            && (forall i :: 0 <= i < |candidates| ==> HasName(resolved, candidates[i].name))
  {
    var batch := Unmatched(candidates, existing);
    var names := CandidateNames(batch);
    UpsertFacts(rows, next, batch);
    var rows' := Upsert(rows, next, batch).0;
    var readBack := NamedRows(rows', names);
    var resolved := MergeById(existing, readBack);
    forall i | 0 <= i < |existing| ensures existing[i] in rows' {
      var k :| 0 <= k < |rows| && rows[k] == existing[i];
      assert rows'[k] == rows[k];
    }
    MergeKeepsRows(existing, readBack, rows');
    forall i | 0 <= i < |resolved| ensures resolved[i] in rows' {
      assert resolved[i] in existing + readBack;
    }
    forall i | 0 <= i < |candidates| ensures HasName(resolved, candidates[i].name) {
      CandidateCovered(candidates[i], batch, existing, rows', resolved);
    }
  }

  /** The second half of saveAlbums and of saveArtists: drop the candidates that already exist,
      write the rest in one saveOrUpdate, read them back by name and merge
      them with the existing rows. Every candidate's name is then among the
      rows returned. */
  method Reconcile<D(==)>(candidates: seq<Candidate<D>>, existing: seq<Row<D>>, store: Table<D>)
    returns (resolved: seq<Row<D>>)
    requires store.Valid()
    requires forall i :: 0 <= i < |existing| ==> existing[i] in store.rows
    modifies store
    ensures store.Valid()
    ensures var batch := Unmatched(candidates, existing);
            && store.writes == old(store.writes) + [batch]
            && (store.rows, store.nextId) == Upsert(old(store.rows), old(store.nextId), batch)
            && resolved == MergeById(existing, NamedRows(store.rows, CandidateNames(batch)))
    ensures UniqueIds(resolved)
    ensures forall i :: 0 <= i < |resolved| ==> resolved[i] in store.rows
    ensures forall i :: 0 <= i < |candidates| ==> HasName(resolved, candidates[i].name)
  {
    var kept, toFetch := Partition(candidates, existing);
    ReconcileCovers(candidates, existing, store.rows, store.nextId);
    store.SaveOrUpdate(kept);
    var readBack := store.FindByNames(toFetch);
    resolved := MergeById(existing, readBack);
  }

  // ---------------------------------------------------------------------
  // Fetched tracks, artists, albums

  datatype AlbumImage = AlbumImage(url: Option<string>)

  /** A track as formatTracks shapes it: its name, its artist's and album's
      names, the album's image list and the remaining attributes. */
  datatype FetchedTrack = FetchedTrack(
    name: string,
    artistName: string,
    albumName: string,
    albumImages: seq<AlbumImage>,
    details: Attributes)

  /** The loop of getTopTracks over the fetched tracks: one artist row
      {name, fully_scraped: 0} and one name per track, in track order. */
  method CollectArtists(tracks: seq<FetchedTrack>)
    returns (artists: seq<Candidate<ArtistData>>, artistNames: seq<string>)
    ensures |artists| == |tracks| && |artistNames| == |tracks|
    ensures forall i :: 0 <= i < |tracks| ==>
              artists[i] == Candidate(tracks[i].artistName, ArtistData(None, 0))
              && artistNames[i] == tracks[i].artistName
  {
    artists, artistNames := [], [];
    for k := 0 to |tracks|
      invariant |artists| == k && |artistNames| == k
      invariant forall i :: 0 <= i < k ==>
                  artists[i] == Candidate(tracks[i].artistName, ArtistData(None, 0))
                  && artistNames[i] == tracks[i].artistName
    {
      artistNames := artistNames + [tracks[k].artistName];
      artists := artists + [Candidate(tracks[k].artistName, ArtistData(None, 0))];
    }
  }

  /** saveArtists: the artists whose names are already stored are kept as
      stored, the others are written in one saveOrUpdate and read back. */
  method SaveArtists(artists: seq<Candidate<ArtistData>>, artistNames: seq<string>, store: Table<ArtistData>)
    returns (resolved: seq<Row<ArtistData>>)
    requires store.Valid()
    modifies store
    ensures store.Valid()
    ensures var existing := NamedRows(old(store.rows), artistNames);
            var batch := Unmatched(artists, existing);
            && store.writes == old(store.writes) + [batch]
            && (store.rows, store.nextId) == Upsert(old(store.rows), old(store.nextId), batch)
            && resolved == MergeById(existing, NamedRows(store.rows, CandidateNames(batch)))
    ensures UniqueIds(resolved)
    ensures forall i :: 0 <= i < |artists| ==> HasName(resolved, artists[i].name)
  {
    var existing := store.FindByNames(artistNames);
    resolved := Reconcile(artists, existing, store);
  }

  /** The album image: images[1].url when set, otherwise the first image's
      url (null when there is no image). */
  function AlbumImageOf(images: seq<AlbumImage>): (r: Option<string>)
    ensures images == [] ==> r == None
    ensures |images| > 1 && images[1].url.Some? ==> r == images[1].url
    ensures !(|images| > 1 && images[1].url.Some?) && |images| > 0 ==> r == images[0].url
    ensures r.Some? ==> (|images| > 0 && r == images[0].url) || (|images| > 1 && r == images[1].url)
  {
    if |images| > 1 && images[1].url.Some? then images[1].url
    else if |images| > 0 then images[0].url
    else None
  }

  /** The album row saveAlbums builds for a track. */
  function AlbumOf(track: FetchedTrack, artists: seq<Row<ArtistData>>): Candidate<AlbumData>
  {
    Candidate(track.albumName, AlbumData(AlbumImageOf(track.albumImages), 0, FirstMatchId(track.artistName, artists)))
  }

  /** The first loop of saveAlbums: one album row per track, with the
      album's image and the id of the track's artist among the resolved
      artists, and the album names and images the existing query uses. */
  method ShapeAlbums(tracks: seq<FetchedTrack>, artists: seq<Row<ArtistData>>)
    returns (albums: seq<Candidate<AlbumData>>, albumNames: seq<string>, albumImages: seq<Option<string>>)
    ensures |albums| == |tracks| && |albumNames| == |tracks| && |albumImages| == |tracks|
    ensures forall i :: 0 <= i < |tracks| ==>
              && albums[i] == AlbumOf(tracks[i], artists)
              && albumNames[i] == tracks[i].albumName
              && albumImages[i] == AlbumImageOf(tracks[i].albumImages)
  {
    albums, albumNames, albumImages := [], [], [];
    for k := 0 to |tracks|
      invariant |albums| == k && |albumNames| == k && |albumImages| == k
      invariant forall i :: 0 <= i < k ==>
                  && albums[i] == AlbumOf(tracks[i], artists)
                  && albumNames[i] == tracks[i].albumName
                  && albumImages[i] == AlbumImageOf(tracks[i].albumImages)
    {
      var track := tracks[k];
      var images := track.albumImages;
      var image := if |images| > 1 && images[1].url.Some? then images[1].url
                   else if |images| > 0 then images[0].url
                   else None;
      var artistId := GetItemId(track.artistName, artists);
      albums := albums + [Candidate(track.albumName, AlbumData(image, 0, artistId))];
      albumNames := albumNames + [track.albumName];
      albumImages := albumImages + [image];
    }
  }

  /** Album::whereIn('name', $albumNames)->whereIn('image', $albumImages):
      a null image matches nothing. */
  predicate IsExistingAlbum(row: Row<AlbumData>, albumNames: seq<string>, albumImages: seq<Option<string>>)
  {
    NameIn(row.name, albumNames) && row.data.image.Some? && row.data.image in albumImages
  }

  /** The stored albums that count as existing for the given names and
      images, in table order. */
  function ExistingAlbums(rows: seq<Row<AlbumData>>, albumNames: seq<string>, albumImages: seq<Option<string>>): (r: seq<Row<AlbumData>>)
    ensures forall i :: 0 <= i < |r| ==> r[i] in rows && IsExistingAlbum(r[i], albumNames, albumImages)
    ensures forall i :: 0 <= i < |rows| && IsExistingAlbum(rows[i], albumNames, albumImages) ==> rows[i] in r
  {
    Filter(rows, (r: Row<AlbumData>) => IsExistingAlbum(r, albumNames, albumImages))
  }

  /** saveAlbums: every track's album is among the rows returned. */
  method SaveAlbums(tracks: seq<FetchedTrack>, artists: seq<Row<ArtistData>>, store: Table<AlbumData>)
    returns (resolved: seq<Row<AlbumData>>)
    requires store.Valid()
    modifies store
    ensures store.Valid()
    ensures var albums := seq(|tracks|, i requires 0 <= i < |tracks| => AlbumOf(tracks[i], artists));
            var names := seq(|tracks|, i requires 0 <= i < |tracks| => tracks[i].albumName);
            var images := seq(|tracks|, i requires 0 <= i < |tracks| => AlbumImageOf(tracks[i].albumImages));
            var existing := ExistingAlbums(old(store.rows), names, images);
            var batch := Unmatched(albums, existing);
            && store.writes == old(store.writes) + [batch]
            && (store.rows, store.nextId) == Upsert(old(store.rows), old(store.nextId), batch)
            && resolved == MergeById(existing, NamedRows(store.rows, CandidateNames(batch)))
    ensures UniqueIds(resolved)
    ensures forall i :: 0 <= i < |tracks| ==> HasName(resolved, tracks[i].albumName)
  {
    var albums, albumNames, albumImages := ShapeAlbums(tracks, artists);
    assert albums == seq(|tracks|, i requires 0 <= i < |tracks| => AlbumOf(tracks[i], artists));
    assert albumNames == seq(|tracks|, i requires 0 <= i < |tracks| => tracks[i].albumName);
    assert albumImages == seq(|tracks|, i requires 0 <= i < |tracks| => AlbumImageOf(tracks[i].albumImages));
    var existing := ExistingAlbums(store.rows, albumNames, albumImages);
    resolved := Reconcile(albums, existing, store);
    forall i | 0 <= i < |tracks| ensures HasName(resolved, tracks[i].albumName) {
      assert albums[i].name == tracks[i].albumName;
    }
  }

  // ---------------------------------------------------------------------
  // Tracks and chart order

  /** The track row written for a chart track: album_id resolved by name,
      the shared temp id, and no artist or album entry. */
  function StampedTrack(track: FetchedTrack, albums: seq<Row<AlbumData>>, tempId: string): Candidate<TrackData>
  {
    Candidate(track.name, TrackData(FirstMatchId(track.albumName, albums), tempId, track.details))
  }

  /** $originalOrder: each track name mapped to its position, a repeated
      name to its last position. */
  function OriginalOrder(tracks: seq<FetchedTrack>): (r: map<string, nat>)
    ensures forall n :: n in r ==> r[n] < |tracks|
    decreases |tracks|
  {
    if tracks == [] then map[]
    else OriginalOrder(tracks[..|tracks| - 1])[tracks[|tracks| - 1].name := |tracks| - 1]
  }

  /** Every track name is a key, and its value is the last position at
      which that name occurs. */
  lemma {:induction false} OriginalOrderIsLastIndex(tracks: seq<FetchedTrack>)
    ensures forall k :: 0 <= k < |tracks| ==> tracks[k].name in OriginalOrder(tracks)
    ensures forall n :: n in OriginalOrder(tracks) ==>
              var k := OriginalOrder(tracks)[n];
              k < |tracks| && tracks[k].name == n
              && forall k' :: k < k' < |tracks| ==> tracks[k'].name != n
    decreases |tracks|
  {
    if tracks != [] {
      var init := tracks[..|tracks| - 1];
      OriginalOrderIsLastIndex(init);
      forall k | 0 <= k < |tracks| - 1 ensures tracks[k].name in OriginalOrder(tracks) {
        assert init[k] == tracks[k];
      }
      forall n | n in OriginalOrder(tracks)
        ensures var k := OriginalOrder(tracks)[n];
                k < |tracks| && tracks[k].name == n
                && forall k' :: k < k' < |tracks| ==> tracks[k'].name != n
      {
        if n != tracks[|tracks| - 1].name {
          var k := OriginalOrder(init)[n];
          assert init[k] == tracks[k];
          forall k' | k < k' < |tracks| ensures tracks[k'].name != n {
            if k' < |tracks| - 1 {
              assert init[k'] == tracks[k'];
            }
          }
        }
      }
    }
  }

  /** The comparator's index: the original position, 0 for an unknown name. */
  function OrderKey(order: map<string, nat>, name: string): int
  {
    if name in order then order[name] else 0
  }

  /** The loop of saveTracks: stamp every track and record its position. */
  method PrepareTracks(tracks: seq<FetchedTrack>, albums: seq<Row<AlbumData>>, tempId: string)
    returns (stamped: seq<Candidate<TrackData>>, order: map<string, nat>)
    ensures |stamped| == |tracks|
    ensures forall i :: 0 <= i < |tracks| ==> stamped[i] == StampedTrack(tracks[i], albums, tempId)
    ensures order == OriginalOrder(tracks)
  {
    stamped, order := [], map[];
    for k := 0 to |tracks|
      invariant |stamped| == k
      invariant forall i :: 0 <= i < k ==> stamped[i] == StampedTrack(tracks[i], albums, tempId)
      invariant order == OriginalOrder(tracks[..k])
    {
      var track := tracks[k];
      var albumId := GetItemId(track.albumName, albums);
      stamped := stamped + [Candidate(track.name, TrackData(albumId, tempId, track.details))];
      assert tracks[..k + 1][..k] == tracks[..k];
      order := order[track.name := k];
    }
    assert tracks[..|tracks|] == tracks;
  }

  /** ->limit(50)->get(). */
  function Take<T>(xs: seq<T>, n: nat): seq<T>
  {
    if |xs| <= n then xs else xs[..n]
  }

  /** where('temp_id', $tempId): the stored tracks of this import. */
  function WithTempId(rows: seq<Row<TrackData>>, tempId: string): (r: seq<Row<TrackData>>)
    ensures forall i :: 0 <= i < |r| ==> r[i] in rows && r[i].data.tempId == tempId
    ensures forall i :: 0 <= i < |rows| && rows[i].data.tempId == tempId ==> rows[i] in r
  {
    Filter(rows, (r: Row<TrackData>) => r.data.tempId == tempId)
  }

  function ChartKey(order: map<string, nat>): Row<TrackData> -> int
  {
    (r: Row<TrackData>) => OrderKey(order, r.name)
  }

  /** saveTracks: one saveOrUpdate with every stamped track, then the rows
      carrying the temp id (at most 50), sorted by their original chart
      position. */
  method SaveTracks(tracks: seq<FetchedTrack>, albums: seq<Row<AlbumData>>, tempId: string, store: Table<TrackData>)
    returns (result: seq<Row<TrackData>>)
    requires store.Valid()
    modifies store
    ensures store.Valid()
    ensures var batch := seq(|tracks|, i requires 0 <= i < |tracks| => StampedTrack(tracks[i], albums, tempId));
            && store.writes == old(store.writes) + [batch]
            && (store.rows, store.nextId) == Upsert(old(store.rows), old(store.nextId), batch)
    ensures multiset(result) == multiset(Take(WithTempId(store.rows, tempId), 50))
    ensures |result| <= 50
    ensures forall i :: 0 <= i < |result| ==> result[i] in store.rows && result[i].data.tempId == tempId
    ensures SortedByKey(result, ChartKey(OriginalOrder(tracks)))
  {
    var stamped, order := PrepareTracks(tracks, albums, tempId);
    assert stamped == seq(|tracks|, i requires 0 <= i < |tracks| => StampedTrack(tracks[i], albums, tempId));
    store.SaveOrUpdate(stamped);
    var reread := Take(WithTempId(store.rows, tempId), 50);
    result := SortByKey(reread, ChartKey(order));
    forall i | 0 <= i < |result| ensures result[i] in store.rows && result[i].data.tempId == tempId {
      assert result[i] in multiset(reread);
    }
    assert |result| == |multiset(result)| == |multiset(reread)| == |reread|;
  }

  /** getTopTracks: the chart's ids, the tracks fetched for them, then one
      bulk write each for artists, albums and tracks, and the tracks in
      chart order. The fetch stands for the HTTP lookup and formatTracks. */
  method GetTopTracks(
    csv: string,
    fetch: string -> seq<FetchedTrack>,
    tempId: string,
    artistStore: Table<ArtistData>,
    albumStore: Table<AlbumData>,
    trackStore: Table<TrackData>)
    returns (result: seq<Row<TrackData>>)
    requires artistStore.Valid() && albumStore.Valid() && trackStore.Valid()
    // The three tables are three different objects.
    requires artistStore as object != albumStore as object
    requires artistStore as object != trackStore as object
    requires albumStore as object != trackStore as object
    modifies artistStore, albumStore, trackStore
    ensures artistStore.Valid() && albumStore.Valid() && trackStore.Valid()
    ensures |artistStore.writes| == |old(artistStore.writes)| + 1
    ensures |albumStore.writes| == |old(albumStore.writes)| + 1
    ensures |trackStore.writes| == |old(trackStore.writes)| + 1
    ensures var tracks := fetch(Trim(CommaTerminated(ChartIds(Split(csv, '\n'))), {','}));
            SortedByKey(result, ChartKey(OriginalOrder(tracks)))
    ensures multiset(result) == multiset(Take(WithTempId(trackStore.rows, tempId), 50))
    ensures forall i :: 0 <= i < |result| ==> result[i] in trackStore.rows && result[i].data.tempId == tempId
  {
    var ids := ExtractTrackIds(csv);
    var tracks := fetch(ids);
    var artists, artistNames := CollectArtists(tracks);
    var resolvedArtists := SaveArtists(artists, artistNames, artistStore);
    var albums := SaveAlbums(tracks, resolvedArtists, albumStore);
    result := SaveTracks(tracks, albums, tempId, trackStore);
  }
}
