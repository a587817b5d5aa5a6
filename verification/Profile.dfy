/** Tags and kinds of the PALA-1 inference profile that the writer and the reader both use. */
module Profile {
  import opened Bytes

  const EVT_KIND: nat := 0x0001
  const EVT_DETAIL: nat := 0x0004
  const EVT_REF_SEQ: nat := 0x0008
  const EVT_REF_HASH: nat := 0x0009
  const EVT_OPERATOR_ID: nat := 0x000A
  const EVT_DISPOSITION: nat := 0x000B
  const EVT_OUTCOME: nat := 0x000E
  const EVT_SOURCE: nat := 0x0011
  const SEG_PREDECESSOR_HEAD: nat := 0x0012
  const SEG_INDEX: nat := 0x0013
  const SEG_RETENTION_S: nat := 0x0014
  const SEG_PRIOR_ROOT: nat := 0x0015

  const TLV_ORIGIN_ROLE: nat := 0x0001
  const TLV_ORIGIN_MODEL_DIGEST: nat := 0x0002
  const TLV_ORIGIN_CONFIG_DIGEST: nat := 0x0003
  const ROLE_NATIVE: Bytes := [101, 110, 103, 105, 110, 101, 46, 110, 97, 116, 105, 118, 101]  // engine.native

  const KIND_MODEL_LOAD: nat := 1
  const KIND_MODEL_UNLOAD: nat := 2
  const KIND_TOOL_CALL: nat := 8
  const KIND_TOOL_RESULT: nat := 9
  const KIND_SEGMENT_CONTINUATION: nat := 11
  const KIND_INCIDENT_CANDIDATE: nat := 102
  const KIND_OVERSIGHT_ACK: nat := 103
  const KIND_GUARD_TOOL_LOOP_LIMIT: nat := 104
  const SOURCE_PARSED_FROM_WIRE: nat := 0
}
