/**
 * What the generative services hand back, as oracle values.  The HTTP call
 * itself is not modelled: a call either gives no response (non-2xx status or
 * a connection error, which the callers turn into nil), or content that does
 * not parse, or parsed data.
 */
module Replies {
  import opened Wrappers

  datatype Reply<T> = NoResponse | Unparseable | Parsed(value: T)

  /** The parsed meta object: `code`, `description`, `keyword` (each may be absent). */
  datatype Meta = Meta(code: Option<string>, description: Option<string>, keyword: Option<string>)

  /** One outline entry: `h2_title` and the optional `h3_sub_sections` list. */
  datatype Entry = Entry(h2Title: Option<string>, h3SubSections: Option<seq<string>>)

  /**
   * The value under the `"structure"` key: absent, a list of entries, or a value
   * with a length whose elements cannot be read as entries (a string, say).
   */
  datatype Structure = Missing | Entries(items: seq<Entry>) | NotEntries(length: nat)

  /** The answer to the `k`-th text call; calls past the end of the oracle get no response. */
  function Answer(answers: seq<Option<string>>, k: nat): (r: Option<string>)
    ensures k < |answers| ==> r == answers[k]
    ensures k >= |answers| ==> r == None
  {
    if k < |answers| then answers[k] else None
  }

  /** Why a generation step raised. */
  datatype Reason =
    | BlankTitle          // "タイトルが空です"
    | NoMeta              // the meta call gave no response
    | MetaUnparseable     // JSON.parse of the meta content raised
    | SlugTaken           // the unique index on `code` rejected a save
    | NoStructure         // no structure, or no "structure" key
    | StructureUnparseable // JSON.parse of the structure content raised
    | StructureNotEntries // the "structure" value cannot be iterated as entries

  /** How a generation step ended: normally, or by raising. */
  datatype Outcome = Done | Raised(reason: Reason)
}
