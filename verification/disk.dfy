/**
 * The local file system the pipelines read and write: data files holding one
 * table each (Parquet) and directories of small files (JSON documents and the
 * serialised model). Directories are flat: subdirectories are not modelled.
 */
module Disk {
  import opened Wrappers
  import opened Frames

  datatype Json =
    | JNull
    | JBool(b: bool)
    | JInt(i: int)
    | JNum(x: real)
    | JStr(s: string)
    | JList(items: seq<Json>)
    | JObject(fields: map<string, Json>)

  /** A JSON document, or the model as the booster library serialises it (opaque here). */
  datatype FileContent = JsonFile(doc: Json) | ModelFile(payload: string)

  type Directory = map<string, FileContent>

  class FileSystem {
    var tables: map<string, Frame>
    var dirs: map<string, Directory>

    constructor (tables: map<string, Frame>, dirs: map<string, Directory>)
      ensures this.tables == tables && this.dirs == dirs
    {
      this.tables := tables;
      this.dirs := dirs;
    }
  }

  /** `os.path.join(dir, name)` on POSIX. */
  function PathJoin(dir: string, name: string): (p: string)
    ensures |name| > 0 && name[0] == '/' ==> p == name
    ensures (|name| == 0 || name[0] != '/') && |dir| > 0 && dir[|dir| - 1] != '/' ==> p == dir + "/" + name
  {
    if |name| > 0 && name[0] == '/' then name
    else if dir == "" || dir[|dir| - 1] == '/' then dir + name
    else dir + "/" + name
  }

  /** `json.dump` of a list of strings. */
  function EncodeNames(names: seq<string>): (j: Json)
    ensures j.JList? && |j.items| == |names|
  {
    JList(seq(|names|, i requires 0 <= i < |names| => JStr(names[i])))
  }

  /** `json.load` read as a list of strings; anything else is not one. */
  function DecodeNames(j: Json): (r: Option<seq<string>>)
    ensures r.Some? ==> j.JList? && |r.value| == |j.items|
  {
    if j.JList? && forall i :: 0 <= i < |j.items| ==> j.items[i].JStr? then
      Some(seq(|j.items|, i requires 0 <= i < |j.items| => j.items[i].s))
    else None
  }

  /** A list of names survives a write and a read unchanged. */
  lemma NamesRoundTrip(names: seq<string>)
    ensures DecodeNames(EncodeNames(names)) == Some(names)
  {
    var j := EncodeNames(names);
    assert forall i :: 0 <= i < |j.items| ==> j.items[i] == JStr(names[i]);
    var decoded := seq(|j.items|, i requires 0 <= i < |j.items| => j.items[i].s);
    assert decoded == names;
  }
}
