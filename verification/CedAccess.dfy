/** Who may write to and read from a topic of the embedded (CED) middleware. */
module CedAccess {
  import opened XrceIds

  const INTERNAL_CLIENT_KEY: int := 0xEAEAEAEA
  const EXTERNAL_CLIENT_KEY_PREFIX: int := 0xEA

  datatype TopicSource = Internal | External

  datatype WriteAccess = NoWrite | WriteInternal | WriteExternal | WriteComplete

  datatype ReadAccess = NoRead | ReadInternal | ReadExternal | ReadComplete

  datatype Role = Role(src: TopicSource, write: WriteAccess, read: ReadAccess)

  // The access table filled in by the CedMiddleware constructor.
  function RoleOf(key: ClientKey): Role {
    if key == INTERNAL_CLIENT_KEY then Role(External, WriteExternal, NoRead)
    else if key / 0x100_0000 == EXTERNAL_CLIENT_KEY_PREFIX then Role(External, NoWrite, ReadInternal)
    else Role(Internal, WriteComplete, ReadComplete)
  }

  predicate CheckWriteAccess(access: WriteAccess, src: TopicSource) {
    access == WriteComplete ||
    (access == WriteInternal && src == Internal) ||
    (access == WriteExternal && src == External)
  }

  predicate CheckReadAccess(access: ReadAccess, src: TopicSource) {
    access == ReadComplete ||
    (access == ReadInternal && src == Internal) ||
    (access == ReadExternal && src == External)
  }

  // A client of this agent, as opposed to those with the external prefix: the internal client and the clients
  // that stand for other agents.
  predicate Ordinary(key: ClientKey) {
    key / 0x100_0000 != 0xEA
  }

  // Clients that stand for other agents only read.
  predicate MayWrite(writer: ClientKey) {
    Ordinary(writer) || writer == 0xEAEA_EAEA
  }

  // An ordinary client hears everybody; a client that stands for another agent hears the ordinary ones; the
  // internal client hears nobody.
  predicate Reaches(writer: ClientKey, reader: ClientKey) {
    if Ordinary(reader) then MayWrite(writer) else reader != 0xEAEA_EAEA && Ordinary(writer)
  }

  /** Who writes and who reaches whom, by the keys alone. */
  lemma AccessByKeys(writer: ClientKey, reader: ClientKey)
    ensures CheckWriteAccess(RoleOf(writer).write, RoleOf(writer).src) <==> MayWrite(writer)
    ensures MayWrite(writer) ==>
              (CheckReadAccess(RoleOf(reader).read, RoleOf(writer).src) <==> Reaches(writer, reader))
  {
  }
}
