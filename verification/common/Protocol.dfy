/** Numbers that TLS and DTLS share: record types, the ChangeCipherSpec message, and the limit of a record. */
module Protocol {
  import opened Bits

  const RT_CHANGE_CIPHER_SPEC: byte := 20
  const RT_ALERT: byte := 21
  const RT_HANDSHAKE: byte := 22
  const RT_APPLICATION_DATA: byte := 23
  const MT_CCS: byte := 1
  const MAX_PLAIN := 16384

  /** A handshake message. */
  datatype Message = Message(typ: byte, body: seq<byte>)
}
