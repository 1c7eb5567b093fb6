/** The mall record shared by the list page, the map and the mall card. */
module Malls {

  /** An optional field of a record (`field?: T` in the record type). */
  datatype Option<+T> = None | Some(value: T)

  /**
   * One local-government online mall, as loaded from the mall list.
   * `region` is typed as a required string. For the region tally the
   * empty string stands for a missing or falsy region; the search assumes
   * every record has one.
   */
  datatype MallRecord = MallRecord(
    id: string,
    name: string,
    url: string,
    region: string,
    city: Option<string>,
    tags: Option<seq<string>>,
    featured: Option<bool>,
    isNew: Option<bool>,
    clickCount: Option<int>,
    lastVerified: Option<string>,
    description: Option<string>,
    statusPopular: Option<bool>
  )
}
