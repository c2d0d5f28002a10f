/** The columns of the catalog entities the providers write, besides id and
    name. */
module Catalog {
  import opened Wrappers

  /** Provider attributes carried through unchanged (duration, number, ...). */
  type Attributes = seq<(string, string)>

  /** artists: image_small (null when unknown) and fully_scraped. */
  datatype ArtistData = ArtistData(imageSmall: Option<string>, fullyScraped: int)

  /** albums: image, fully_scraped and artist_id (null when unresolved). */
  datatype AlbumData = AlbumData(image: Option<string>, fullyScraped: int, artistId: Option<nat>)

  /** tracks: album_id (null when unresolved), temp_id and the rest. */
  datatype TrackData = TrackData(albumId: Option<nat>, tempId: string, details: Attributes)

  /** genres: popularity and image path. */
  datatype GenreData = GenreData(popularity: int, image: string)
}
