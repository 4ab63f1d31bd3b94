/** The values the plugin receives from webpack and from its configuration. */
module Typings {

  /** One webpack chunk: its name, its content hash and the files it emits. */
  datatype Chunk = Chunk(name: string, hash: string, files: seq<string>)

  /** A role entry of the plugin's `entries` option: `null`, a single chunk
      name, or an array of chunk names. */
  datatype Role = Null | Name(name: string) | Names(names: seq<string>)

  /** `IEntriesOption`: which chunk is the background script, which are
      content scripts and which are extension pages. */
  datatype Entries = Entries(background: string, contentScript: Role, extensionPage: Role)

  /** The names a role designates, as a set. */
  function RoleNames(role: Role): (r: set<string>)
    ensures role.Null? ==> r == {}
    ensures role.Name? ==> r == {role.name}
    ensures role.Names? ==> forall n :: n in r <==> n in role.names
  {
    match role
    case Null => {}
    case Name(n) => {n}
    case Names(ns) => set n | n in ns
  }
}
