/** Constants of the wire protocol. */
module Protocol {
  import opened Bytes

  const HEADER_SIZE: nat := 8

  const OPCODE_ERROR: byte := 0x00
  const OPCODE_STARTUP: byte := 0x01
  const OPCODE_READY: byte := 0x02
  const OPCODE_SUPPORTED: byte := 0x06
  const OPCODE_RESULT: byte := 0x08

  const KIND_VOID := 1
  const KIND_ROWS := 2
  const KIND_SET_KEYSPACE := 3
  const KIND_PREPARED := 4
  const KIND_SCHEMA_CHANGE := 5
}
