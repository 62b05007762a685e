/**
 * The pieces of a KeePass database that the lookup plugin reads: entries with
 * their plain attributes, attachments, owning group and history snapshots,
 * and the flat records the plugin hands back to Ansible.
 */
module Entries {

  /** An attribute value as pykeepass exposes it. Python's `str()` is spelled
      out for text, booleans and `None`; any other object (a datetime, a UUID,
      a list of tags) carries the text its own `str()` produces. */
  datatype Value = Text(s: string) | Bool(b: bool) | Null | Object(repr: string)

  /** Python's `str()` of an attribute value. */
  function ToStr(v: Value): (text: string)
  {
    match v
    case Text(s) => s
    case Bool(b) => if b then "True" else "False"
    case Null => "None"
    case Object(repr) => repr
  }

  const Password: string := "password"

  /** The four attributes that are converted specially instead of by `str()`. */
  const Structured: set<string> := {"attachments", "group", "parentgroup", "history"}

  /** The entry's public, non-callable attributes other than the four
      structured ones, by name. The map stands for what remains after the
      `_`-prefix filter, so it is taken to hold no `_`-prefixed name. */
  type Fields = m: map<string, Value>
    | "attachments" !in m && "group" !in m && "parentgroup" !in m && "history" !in m
    witness map[]

  /** An attachment; the plugin reads only its filename. */
  datatype Attachment = Attachment(filename: string)

  /** A group; the plugin reads only its path. */
  datatype Group = Group(path: string)

  /** An entry; each history snapshot is itself an entry. */
  datatype Entry = Entry(
    fields: Fields,
    attachments: seq<Attachment>,
    group: Group,
    parentgroup: Group,
    history: seq<Entry>)

  /** The names `dir(entry)` lists once callables and `_`-prefixed names are
      filtered out. `dir` never lists a name twice, so a set stands for it. */
  function PublicNames(e: Entry): (names: set<string>)
  {
    e.fields.Keys + Structured
  }

  /** One value in a serialised entry. */
  datatype Item = Str(s: string) | StrList(items: seq<string>) | RecordList(records: seq<Record>)

  /** The dictionary `_entry_to_dict` returns. */
  datatype Record = Record(fields: map<string, Item>)
}
