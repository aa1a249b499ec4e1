/** core/types.go: the mount entry, its validation, and the comparison used by snapshot diffs. */
module Entries {
  import opened Bytes
  import Stream

  datatype Kind = Unset | BlobKind | ApiKind | StreamKind | DirKind | DynamicDirKind | LinkKind

  /** `agents` tells whether there is an agents template; `text` stands for the fields rendered into the files. */
  datatype SkillConfig = SkillConfig(name: string, enabled: bool, exposeAtRoot: bool, agents: bool, text: string)

  /** `ops` maps an operation to the provider it is bound to; `None` is a nil binding. */
  datatype MountEntry = MountEntry(
    id: nat, path: string, kind: Kind, mode: nat, uid: nat, gid: nat,
    ops: map<string, Option<string>>, skill: Option<SkillConfig>, stream: Option<Stream.StreamConfig>,
    visibility: string, namespace: string, blob: seq<byte>, linkPath: string, modTime: int)

  predicate WellConfigured(e: MountEntry) {
    && e.kind != Unset
    && (e.blob != [] ==> e.kind == BlobKind)
    && (e.linkPath != "" ==> e.kind == LinkKind)
    && (e.stream.Some? ==>
          e.kind == StreamKind && e.stream.value.capacity > 0 && e.stream.value.maxChunkSize >= 0)
    && (e.skill.Some? && e.skill.value.enabled ==> e.skill.value.name != "")
    && e.visibility in {"", "public", "private"}
    && (forall op :: op in e.ops && e.ops[op].Some? ==> e.ops[op].value != "")
  }

  /** `mountEntryEqual`: ignores the id, the path, the operations, the namespace, the chunk size
   * and most of the skill. */
  predicate Same(a: MountEntry, b: MountEntry) {
    && a.kind == b.kind && a.mode == b.mode && a.uid == b.uid && a.gid == b.gid
    && a.linkPath == b.linkPath && a.visibility == b.visibility
    && a.modTime == b.modTime && a.blob == b.blob
    && a.stream.Some? == b.stream.Some?
    && (a.stream.Some? && b.stream.Some? ==>
          a.stream.value.capacity == b.stream.value.capacity && a.stream.value.mode == b.stream.value.mode)
    && a.skill.Some? == b.skill.Some?
    && (a.skill.Some? && b.skill.Some? ==>
          a.skill.value.name == b.skill.value.name && a.skill.value.enabled == b.skill.value.enabled)
  }
}
