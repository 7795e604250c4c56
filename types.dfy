/** The record shapes of types.ts and a small Option type used across the model. */
module Types {

  datatype Option<T> = None | Some(value: T)

  /** A timestamped note on one video (types.ts:2-8). Times are whole numbers here. */
  datatype Bookmark = Bookmark(id: string, videoId: string, timestamp: int, note: string, createdAt: int)

  /** A bookmark before the repository gives it an id and a creation time: Omit<Bookmark, 'id' | 'createdAt'>. */
  datatype Draft = Draft(videoId: string, timestamp: int, note: string)

  /** Read-only reference data about a video (types.ts:10-15). */
  datatype Video = Video(id: string, title: string, thumbnail: string, duration: nat)

  /** No two records of the collection share an id. */
  predicate UniqueIds(s: seq<Bookmark>)
  {
    forall i, j :: 0 <= i < j < |s| ==> s[i].id != s[j].id
  }
}
