/**
 * The `ai_tools` record. `id` is the generated primary key; `name` and `url`
 * are required; `description`, `imageUrl`, `category` and `source` may be
 * null; `lastSeen` is filled with the current time by the store. The insert
 * shape carries every column except `id` and `lastSeen`, so a caller can set
 * neither.
 */
module Schema {
  import opened Wrappers
  import opened Text

  /** A point in time, as supplied by the store's clock. */
  type Timestamp = nat

  datatype Tool = Tool(
    id: nat,
    name: string,
    url: string,
    description: Option<string>,
    imageUrl: Option<string>,
    category: Option<string>,
    source: Option<string>,
    lastSeen: Timestamp)

  datatype InsertTool = InsertTool(
    name: string,
    url: string,
    description: Option<string>,
    imageUrl: Option<string>,
    category: Option<string>,
    source: Option<string>)

  /** The normalised URL, `LOWER(url)`, on which the unique index is built. */
  function UrlKey(url: string): string {
    Lower(url)
  }

  /** The row the store creates from an insert: the generated `id` and the current time are the store's. */
  function Materialize(ins: InsertTool, id: nat, now: Timestamp): (t: Tool)
    ensures t.id == id && t.lastSeen == now
    ensures ToInsert(t) == ins
  {
    Tool(id, ins.name, ins.url, ins.description, ins.imageUrl, ins.category, ins.source, now)
  }

  /** The insertable columns of a row. */
  function ToInsert(t: Tool): InsertTool {
    InsertTool(t.name, t.url, t.description, t.imageUrl, t.category, t.source)
  }

  /** A row is fully determined by its insertable columns, its id and its timestamp. */
  lemma MaterializeToInsert(t: Tool)
    ensures Materialize(ToInsert(t), t.id, t.lastSeen) == t
  {
  }
}
