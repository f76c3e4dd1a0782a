/** The few Python runtime notions the Active Directory parsers depend on. */
module PyValues {
  import opened ByteCodec

  /** The exceptions the parsers raise. `StructError` is `struct.error`, which escapes
      from the `bytes_le` property because nothing there catches it. */
  datatype PyError = TypeError | ValueError | StructError

  /** The dynamic type of an argument: the parsers only tell `bytes` and `str` from
      everything else (`isinstance` checks). */
  datatype PyArg = PyBytes(bytes: seq<Byte>) | PyStr(text: string) | PyOther
}
