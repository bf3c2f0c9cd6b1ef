/**
 * The document shape of a pending request, which an approved publication
 * shares: titles, description, owner, category, start and end instants
 * (integer milliseconds) and the bundle of hosted photos and videos.
 */
module Records {
  import opened UserModel

  /** One hosted asset: its generated id and its URL. */
  datatype MediaRef = MediaRef(id: string, url: string)

  datatype MediaBundle = MediaBundle(photos: seq<MediaRef>, videos: seq<MediaRef>)

  datatype EventRecord = EventRecord(
    id: string,
    titles: string,
    descriptions: string,
    idUsers: UserId,
    category: string,
    startDates: int,
    endDates: int,
    medias: MediaBundle)
}
