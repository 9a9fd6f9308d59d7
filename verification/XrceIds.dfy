/** The identifiers the XRCE protocol fixes, shared by the modules that handle clients and objects. */
module XrceIds {
  import opened Words

  // A client key, as the number its four bytes spell: compared byte by byte, keys order like these numbers.
  type ClientKey = u32

  type SessionId = u8

  // Object kinds.
  const OBJK_PARTICIPANT: u8 := 0x01
  const OBJK_TOPIC: u8 := 0x02
  const OBJK_PUBLISHER: u8 := 0x03
  const OBJK_SUBSCRIBER: u8 := 0x04
  const OBJK_DATAWRITER: u8 := 0x05
  const OBJK_DATAREADER: u8 := 0x06
  const OBJK_REQUESTER: u8 := 0x07
  const OBJK_REPLIER: u8 := 0x08
  const OBJK_TYPE: u8 := 0x0A
  const OBJK_QOSPROFILE: u8 := 0x0B
  const OBJK_APPLICATION: u8 := 0x0C
  const OBJK_AGENT: u8 := 0x0D
  const OBJK_CLIENT: u8 := 0x0E
}
