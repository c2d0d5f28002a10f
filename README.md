# BeMusic catalog providers — a Dafny model

This project models the name-based reconciliation and shaping logic of three
BeMusic providers:

- **SpotifyTopTracks** imports the Spotify daily chart. It takes the track
  ids of ranks 1 to 50 from the chart feed, fetches the tracks, and saves
  their artists, albums and the tracks themselves with one bulk write each.
  It then hands back the stored tracks in chart order.
- **LastfmGenres** shapes Last.fm tag lists into genres and builds each
  genre's local image path. For a genre's top artists, it removes
  in-batch duplicates by slug, inserts the artists that do not exist yet,
  reads them back by name and writes the genre/artist pivot rows.
- **LocalGenres::getGenres** normalises the requested genre names and
  builds the `FIELD()` order list and the cache key. On a cache hit it
  returns the cached value; otherwise it runs one query, answers 404 when
  nothing is found, and caches a non-empty result.

The database, HTTP and cache are replaced by an in-memory store (`store.dfy`):

- A table is a class `Store.Table` with a `seq` of `{id, name, data}` rows,
  the next auto-increment id, and a ghost log of its bulk writes.
- `ArtistSaver::saveOrUpdate` is modelled through its contract. It is an
  insert-only upsert keyed by name: a candidate whose name is already
  stored, which includes one written earlier in the same batch, is skipped.
- `Model::insert` appends every row.
- Eloquent's `Collection::merge` keeps one row per id, and a later row
  replaces an earlier one with the same id.
- Name lookups (`whereIn('name', …)`) compare ASCII-lower-cased names, as
  a case-insensitive collation would.

The loops of the PHP code are `method`s with loop invariants, each proved
against a specification function. State that PHP changes (tables, the pivot
table, the cache, the query count) lives in classes whose methods state
their whole new state. The properties the code promises are proved as
lemmas about those functions.

Files:

- `wrappers.dfy`: `Option` and `Result`.
- `text.dfy`: the PHP string functions used: ASCII `strtolower`, `trim`,
  `explode`/`implode`, `str_replace(', ', ',')`.
- `sequences.dfy`: order-preserving filtering, and sorting by an integer key.
- `store.dfy`: the in-memory store.
- `catalog.dfy`: the row payloads of artists, albums, tracks and genres.
- `spotify_top_tracks.dfy`, `lastfm_genres.dfy`, `local_genres.dfy`: the
  three providers.

## Model

| member | source | states |
|---|---|---|
| SpotifyTopTracks.ExtractTrackIds | Spotify/SpotifyTopTracks.php:41-56 | The loop's id string is the lines of rank 1 to 50, each matching line's id followed by ',', and `trim(…, ',')` of the whole. |
| SpotifyTopTracks.ChartIdsWindow | Spotify/SpotifyTopTracks.php:45-47 | The header line and every line after rank 50 contribute nothing; at most 50 ids result. |
| SpotifyTopTracks.MatchTrackId | Spotify/SpotifyTopTracks.php:49-53 | `/.+?\/track\/(.+)/` matches exactly when a "/track/" with at least one character before and after it occurs. The capture is the rest of the line after the first such occurrence, and is non-empty. |
| SpotifyTopTracks.FindMarker | Spotify/SpotifyTopTracks.php:49 | The scan for the first marker from a position: none exactly when no position has one, otherwise the text after the first one. |
| SpotifyTopTracks.LineIds | Spotify/SpotifyTopTracks.php:51-53 | Each line contributes at most one id, and no id is empty. |
| SpotifyTopTracks.TrimmedIdsAreJoined | Spotify/SpotifyTopTracks.php:52-56 | When the ids do not start or end with a comma, the trimmed string is the ids joined with ',', with no trailing comma. |
| SpotifyTopTracks.CollectArtists | Spotify/SpotifyTopTracks.php:60-70 | One `{name, fully_scraped: 0}` artist row and one name per track, in track order. |
| SpotifyTopTracks.FirstMatchId | Spotify/SpotifyTopTracks.php:193-200 | null exactly when no item matches; otherwise the id of the first item whose lower-cased name equals the lower-cased query. |
| SpotifyTopTracks.GetItemId | Spotify/SpotifyTopTracks.php:193-200 | The early-return scan returns that first match's id, or null. |
| SpotifyTopTracks.InArray | Spotify/SpotifyTopTracks.php:202-209 | True exactly when some item's lower-cased name equals the lower-cased query. |
| SpotifyTopTracks.Partition | Spotify/SpotifyTopTracks.php:176-184 | Each candidate is kept exactly when it matches no existing row, order is preserved, and the names to fetch are exactly the kept candidates' names, in order. |
| SpotifyTopTracks.ReconcileCovers | Spotify/SpotifyTopTracks.php:186-190 | After the bulk write of the unmatched candidates, the merged rows are stored rows, and every candidate's name is among them. |
| SpotifyTopTracks.Reconcile | Spotify/SpotifyTopTracks.php:154-168 | One write of exactly the unmatched candidates; the new table is the upsert of the old. The result is existing merged with the rows read back by name; it is stored rows, has unique ids and covers every candidate. |
| SpotifyTopTracks.SaveArtists | Spotify/SpotifyTopTracks.php:172-191 | Existing artists are whereIn by name. One write of the unmatched artists. Every artist's name is among the resolved rows, which have unique ids. |
| SpotifyTopTracks.AlbumImageOf | Spotify/SpotifyTopTracks.php:139 | The second image's url is taken when it is set. Otherwise the url is the first image's, and there is none without images. The image is always the url of one of the first two images. |
| SpotifyTopTracks.ShapeAlbums | Spotify/SpotifyTopTracks.php:136-150 | One album row per track: image `images[1].url` when set, else the first image's url. The row's artist_id is getItemId of the track's artist among the resolved artists, and fully_scraped is 0. Names and images are listed in track order. |
| SpotifyTopTracks.ExistingAlbums | Spotify/SpotifyTopTracks.php:152 | Exactly the stored albums whose name is requested and whose non-null image is among the requested images. |
| SpotifyTopTracks.SaveAlbums | Spotify/SpotifyTopTracks.php:134-170 | One write of the albums matching no existing album. Every track's album name is among the resolved rows, which have unique ids. |
| SpotifyTopTracks.PrepareTracks | Spotify/SpotifyTopTracks.php:102-117 | Every track is stamped with getItemId of its album, the shared temp id and no artist/album entry. The order map is the fold over names. |
| SpotifyTopTracks.OriginalOrder | Spotify/SpotifyTopTracks.php:116 | `$originalOrder` maps names to positions of the track list: every value is a valid index. |
| SpotifyTopTracks.OriginalOrderIsLastIndex | Spotify/SpotifyTopTracks.php:116 | Every track name is a key of `$originalOrder`, mapped to the last position where that name occurs. |
| SpotifyTopTracks.SaveTracks | Spotify/SpotifyTopTracks.php:100-131 | One write of the stamped tracks. The result is a permutation of the first 50 stored rows with the temp id, ordered by non-decreasing original index, with 0 for an unknown name. |
| SpotifyTopTracks.GetTopTracks | Spotify/SpotifyTopTracks.php:37-77 | One write per table. The result is a permutation of the first 50 stored tracks with this import's temp id, sorted by chart position. |
| Text.TrimShape | Spotify/SpotifyTopTracks.php:56 | `trim($s, $cs)` is a slice of s, everything cut from either end is in cs, and the result neither starts nor ends with a char of cs. |
| LastfmGenres.ContainsBySlugMeans | Lastfm/LastfmGenres.php:184-195 | collectionContainsArtist is false for an empty collection. Otherwise it is true exactly when some element's slug equals the query's slug, or either slug is falsy. |
| LastfmGenres.ContainsBySlug | Lastfm/LastfmGenres.php:184-195 | The answer of collectionContainsArtist: never for an empty collection, and always for a non-empty one when the query's slug is falsy. |
| LastfmGenres.CollectionContainsArtist | Lastfm/LastfmGenres.php:184-195 | The early-return scan answers that containment. |
| LastfmGenres.FalsySlugContainsAll | Lastfm/LastfmGenres.php:189 | One element whose slug is falsy makes the collection contain every name. |
| LastfmGenres.ContainsBySlugIgnoresCase | Lastfm/LastfmGenres.php:186-189 | Containment does not depend on the letter case of the query. |
| LastfmGenres.Slug | Lastfm/LastfmGenres.php:186-187 | `Str::slug` on ASCII text; a slug never starts or ends with '-'. |
| LastfmGenres.SlugShape | Lastfm/LastfmGenres.php:186-187 | A slug uses only a-z, 0-9 and single inner hyphens, and does not start or end with one. |
| LastfmGenres.SlugIdempotent | Lastfm/LastfmGenres.php:186-187 | Slugging a slug gives it back. |
| LastfmGenres.SlugIgnoresCase | Lastfm/LastfmGenres.php:186-187 | Names equal up to ASCII case have equal slugs. |
| LastfmGenres.SmallImage | Lastfm/LastfmGenres.php:131 | image_small is null exactly when there is no fifth image URL or it is a placeholder; otherwise it is that URL. |
| LastfmGenres.Deduped | Lastfm/LastfmGenres.php:128-141 | The dedup fold: an artist is kept, as its formatted row, unless a row kept before it contains it by slug. It never keeps more rows than were fetched. |
| LastfmGenres.DedupArtists | Lastfm/LastfmGenres.php:128-141 | The loop computes the dedup fold, and names are the formatted artists' names, in order. |
| LastfmGenres.DedupedNoneContained | Lastfm/LastfmGenres.php:129 | No artist is kept while an artist kept before it already contains it by slug. |
| LastfmGenres.DedupedCovers | Lastfm/LastfmGenres.php:128-141 | Every fetched artist is contained by slug in the kept artists. |
| LastfmGenres.DedupedFromFetched | Lastfm/LastfmGenres.php:133-137 | Every kept row is `{name, image_small, fully_scraped: 0}` of a fetched artist. |
| LastfmGenres.DedupedKeepsFirst | Lastfm/LastfmGenres.php:128-141 | The first fetched artist is always kept, first. |
| LastfmGenres.DedupedPrefix | Lastfm/LastfmGenres.php:128-141 | Later artists never remove or reorder what was kept for earlier ones. |
| LastfmGenres.ToInsert | Lastfm/LastfmGenres.php:145-147 | The inserted rows are exactly the formatted artists that no existing artist contains by slug. |
| LastfmGenres.ToInsertNoExisting | Lastfm/LastfmGenres.php:143-149 | With no existing artists, every formatted artist is inserted. |
| LastfmGenres.GenreArtistsCover | Lastfm/LastfmGenres.php:143-151 | After the insert, the artists read back by name contain every formatted artist by slug. |
| LastfmGenres.GetGenreArtists | Lastfm/LastfmGenres.php:120-156 | One Artist::insert of exactly the filtered rows, which advances the next id by their number. The result is the rows read back by name, and every kept artist is contained in it. One pivot write links the genre to each of them. |
| LastfmGenres.PivotRows | Lastfm/LastfmGenres.php:166-170 | One `{genre_id, artist_id}` row per artist, in artist order, all with the genre's id. |
| LastfmGenres.BuildPivotRows | Lastfm/LastfmGenres.php:166-170 | The loop builds those pivot rows. |
| LastfmGenres.AttachGenre | Lastfm/LastfmGenres.php:164-173 | One pivot write of the artists' `{genre_id, artist_id}` rows; afterwards the genre is linked to every artist. |
| Store.LinkTable.SaveOrUpdate | Lastfm/LastfmGenres.php:172 | One logged write; the pivot table becomes the old links plus the batch's new pairs, with no pair stored twice. |
| LastfmGenres.AttachGenreLinksAll | Lastfm/LastfmGenres.php:172 | After the pivot write the genre is linked to every artist with no pair stored twice, and writing it again changes nothing. |
| LastfmGenres.GenreImagePath | Lastfm/LastfmGenres.php:175-179 | The path is as long as directory, trimmed name and extension together, and holds no space. |
| LastfmGenres.GenreImagePathShape | Lastfm/LastfmGenres.php:177-179 | The path is "assets/images/genres/", then the trimmed, lower-cased name with spaces as hyphens, then ".jpg"; it holds no space. |
| LastfmGenres.GenreImagePathInjective | Lastfm/LastfmGenres.php:177-179 | Two genre names without '-' share an image path exactly when they are equal once trimmed and lower-cased. |
| LastfmGenres.GenreImagePathSpaceHyphenClash | Lastfm/LastfmGenres.php:177-179 | A space and a hyphen collide: "Hip Hop" and "hip-hop" get the same image path. |
| LastfmGenres.GenreImagePathTrimmed | Lastfm/LastfmGenres.php:177 | Surrounding whitespace does not change the path. |
| LastfmGenres.Items | Lastfm/LastfmGenres.php:102-104 | A string input is exploded on ',' into one plain item per part. |
| LastfmGenres.FormatGenres | Lastfm/LastfmGenres.php:98-118 | One formatted genre per item, in order. names is the fold where an array item appends `{name}` and a plain item resets names to the whole list. |
| LastfmGenres.FormatGenresCsv | Lastfm/LastfmGenres.php:102-113 | For a string, each part gives a trimmed name with popularity 0 and its image path, and names is the raw, untrimmed list of parts. |
| LastfmGenres.FormatGenresAllTags | Lastfm/LastfmGenres.php:107-109 | For an array of tags, names is one `{name}` per tag, in order. |
| Text.SplitAfterReplace | Local/LocalGenres.php:35 | After `str_replace(', ', ',')`, exploding on ',' gives as many names as before. The first is unchanged, and each later one loses only the one space after its comma. |
| Text.ReplaceCommaSpace | Local/LocalGenres.php:35 | `str_replace(', ', ',')` never lengthens the string. |
| Text.ReplaceCommaSpaceOnePass | Local/LocalGenres.php:35 | When no comma is followed by two spaces, no ", " is left after the replacement; only a comma followed by two spaces keeps one, since the pass never rescans its output. |
| Text.SplitJoin | Local/LocalGenres.php:36 | Exploding an implode of comma-free parts gives the parts back. |
| Text.JoinSplit | Local/LocalGenres.php:36 | Imploding an explode gives the string back. |
| LocalGenres.OrderList | Local/LocalGenres.php:36 | Exploding the order list on ',' gives each requested name in quotes, in order, one item per name. |
| LocalGenres.FieldItemsOfOrderList | Local/LocalGenres.php:36-43 | Unquoting the order list's items gives the requested names back. |
| LocalGenres.CacheKey | Local/LocalGenres.php:37 | As written, the key is "genres." and the limit, then the normalised names verbatim. |
| LocalGenres.CacheKeyCollidesAcrossLimits | Local/LocalGenres.php:37 | As written, limit 2 with names "0rock" and limit 20 with names "rock" share a key. |
| LocalGenres.SeparatedCacheKey | Local/LocalGenres.php:37 | The corrected key: "genres.", the limit, '.', then the names verbatim. |
| LocalGenres.SeparatedCacheKeyInjective | Local/LocalGenres.php:37 | For limits with no '.', two requests share a corrected key exactly when their limits and their names agree. |
| LocalGenres.CacheKeyInjective | Local/LocalGenres.php:37 | For one limit, two name lists share a cache key exactly when they are equal. |
| LocalGenres.FieldPosition | Local/LocalGenres.php:43 | FIELD() is 0 exactly when the name is not in the list; otherwise it is the 1-based position of its first case-insensitive match. |
| LocalGenres.OrderedGenres | Local/LocalGenres.php:43 | The whereIn plus `orderByRaw(FIELD(…))` query: a permutation of the stored rows named in the list, sorted by FIELD position. |
| LocalGenres.OrderedGenresMeans | Local/LocalGenres.php:43 | The query yields exactly the stored genres named in the list, each once, ordered by non-decreasing position in the list. |
| LocalGenres.GenreRepository.FindOrdered | Local/LocalGenres.php:43 | One query, counted, answering the FIELD-ordered whereIn. |
| LocalGenres.GenreCache.Put | Local/LocalGenres.php:58 | The cache maps the key to the value and is otherwise unchanged; it still holds only non-empty values. |
| LocalGenres.GetGenres | Local/LocalGenres.php:34-61 | The cache key is CacheKey, as written (see Findings). A hit returns the cached value with no query and no cache change. A miss makes one query: an empty result is Err(404) with the cache unchanged, and a non-empty one is cached under the key and returned. |
| Store.Upsert | Spotify/SpotifyTopTracks.php:186 | saveOrUpdate adds at most one row per candidate, and the next id advances by exactly the number of rows added. |
| Store.UpsertFacts | Spotify/SpotifyTopTracks.php:186 | saveOrUpdate keeps the stored rows and unique ids, and stores every candidate's name. Every row it adds is a candidate. |
| Store.UpsertIdempotent | Spotify/SpotifyTopTracks.php:164 | Writing the same batch twice writes nothing the second time. |
| Store.MergeKeepsRows | Spotify/SpotifyTopTracks.php:168 | Merging rows read from one table loses no row of either side. |
| Store.MergeById | Spotify/SpotifyTopTracks.php:190 | The merge has unique ids and holds only rows of the two sides. |
| Store.NamedRows | Spotify/SpotifyTopTracks.php:174 | whereIn('name', …) gives exactly the stored rows whose name matches an entry, ignoring case. |
| Store.Table.SaveOrUpdate | Spotify/SpotifyTopTracks.php:186 | One logged write; the table becomes the upsert of the batch and keeps unique ids. |
| Store.Table.Insert | Lastfm/LastfmGenres.php:149 | One logged write that appends every row with fresh ids. |
| Store.AddLinks | Lastfm/LastfmGenres.php:172 | The pivot write keeps the old links, in order, as a prefix and adds at most one link per batch entry. |
| Store.AddLinksFacts | Lastfm/LastfmGenres.php:172 | The pivot write keeps the old links, stores no pair twice, stores every pair of the batch, and nothing else. |
| Store.AddLinksIdempotent | Lastfm/LastfmGenres.php:172 | Attaching the same links twice stores them once. |
| Sequences.SortByKey | Spotify/SpotifyTopTracks.php:123-131 | The sort gives a permutation of its input ordered by non-decreasing key. |
| Sequences.FilterAppend | Lastfm/LastfmGenres.php:145-147 | array_filter keeps the original order: filtering a concatenation filters each part. |

## Left out

- Spotify/SpotifyRadio.php is not part of this model. It is a network client with no local logic beyond one field projection.
- HTTP and curl fetches, the API keys and Settings/env fallback, and `ini_set` are left out. The chart feed is the `csv` parameter; `getTracks` plus `formatTracks` is the `fetch` parameter; the Last.fm top artists are the `fetched` parameter.
- `LastfmGenres::getGenres` and `getMostPopular`, with the cache of `lastfm.genres` and the single sleep-and-retry on a missing `toptags`, are left out as timing and HTTP. Only the `formatGenres` they call is modelled.
- The cache TTLs are left out: the cache is a map without expiry.
- The `url()`/`secure_url()` wrapping of the image path is left out; the path string is modelled.
- `LocalGenres::getGenreArtists` and its `Paginator` are left out.
- The eager load `Track::with('album.artist')` of the tracks read back in saveTracks (Spotify/SpotifyTopTracks.php:121) is left out; the track rows themselves are modelled.
- The eager load of each genre's artists with a limit in getGenres (Local/LocalGenres.php:50-56) is left out; the genres themselves are modelled.
- `groupBy('name')->distinct()` of the existing-album query is left out: ExistingAlbums returns every matching stored album.
- `ArtistSaver::saveOrUpdate` and `SpotifyArtist::formatTracks` are not part of this model. saveOrUpdate follows its contract: it inserts the rows not already present by name and leaves the others untouched. So a chart track that is already stored keeps its old temp id and is not read back.
- `str_random(8)` is left out: the temp id is a parameter.
- SameName: names are compared by ASCII lower case. PHP's `==` on two numeric strings ("1e1" == "10") and multibyte case folding are not modelled.
- SlugsMatch: slugs are compared as strings. PHP's `==` compares two numeric slugs as numbers ("007" == "7"), so collectionContainsArtist (CollectionContainsArtist here) also matches such pairs; that is not modelled.
- Slug: Laravel's transliteration of non-ASCII text is not modelled. The slug is the ASCII one: '_' to '-', lower case, keep '-', letters, digits and spaces, squeeze runs, trim '-'. Control characters, tabs and line breaks are dropped, as Str::ascii deletes everything outside printable ASCII before the slug is built.
- FieldPosition: MySQL's collation is modelled as ASCII case-insensitive equality. The FIELD list is read back from the order-list string by splitting on ',' and removing one pair of quotes; SQL quoting of a name that holds a quote is not modelled.
- SaveTracks: PHP's sort is not stable, so only non-decreasing original index is stated, not the order of ties.
- GetTopTracks: the contract states the one write per table and the result, the re-read tracks sorted by chart position. The full contents of the three tables are stated by SaveArtists, SaveAlbums and SaveTracks, which it calls in turn.
- TrimmedIdsAreJoined: it assumes the ids do not start or end with a comma. `trim($ids, ',')` also strips such commas from the ids themselves, and that case is stated only by ExtractTrackIds.

## Findings

| source | as written | input that shows it | evidently intended | confidence | as-written member | corrected member |
|---|---|---|---|---|---|---|
| Local/LocalGenres.php:37 | The cache key is 'genres.' followed by the limit and the names with nothing between them. | limit 2 with names "0rock" and limit 20 with names "rock" give the same key "genres.20rock", so the second request is answered with the first one's genres. | A key that tells the limit and the names apart, such as one with a '.' between them; a numeric limit holds no '.'. | not executed; medium | LocalGenres.CacheKeyCollidesAcrossLimits | LocalGenres.SeparatedCacheKeyInjective |

GetGenres keeps the key as written, so its contract describes the source's behaviour, cross-limit hits included. The corrected key is SeparatedCacheKey.
