/** The security descriptor as src/bonsai/active_directory/__init__.py decodes it from its
    self-relative binary form: a 20-byte header, then the owner and group SIDs and the
    SACL and DACL at the offsets the header gives. */
module SecurityDescriptorFormat {
  import opened Outcome
  import opened ByteCodec
  import opened PyValues
  import opened SidFormat
  import opened AclFormat

  /** The keys of the control map and the bit of the control word each one reads. */
  const ControlValues: map<string, nat> := map[
    "self_relative" := 0x8000,
    "rm_control_valid" := 0x4000,
    "sacl_protected" := 0x2000,
    "dacl_protected" := 0x1000,
    "sacl_auto_inherited" := 0x800,
    "dacl_auto_inherited" := 0x400,
    "sacl_computed_inheritance_required" := 0x200,
    "dacl_computed_inheritance_required" := 0x100,
    "server_security" := 0x80,
    "dacl_trusted" := 0x40,
    "sacl_defaulted" := 0x20,
    "sacl_present" := 0x10,
    "dacl_defaulted" := 0x8,
    "dacl_present" := 0x4,
    "group_defaulted" := 0x2,
    "owner_defaulted" := 0x1
  ]

  /** The length of the `<BBHIIII` header. */
  const HeaderSize: nat := 20

  datatype SecurityDescriptor = SecurityDescriptor(
    revision: nat,
    sbz1: nat,
    control: map<string, bool>,
    ownerSid: Option<Sid>,
    groupSid: Option<Sid>,
    sacl: Option<Acl>,
    dacl: Option<Acl>)

  /** `SecurityDescriptor.__convert_ctrl(ctrl)`: each key is true iff its bit is set. */
  function ConvertControl(ctrl: nat): (r: map<string, bool>)
    ensures r.Keys == ControlValues.Keys
  {
    map k | k in ControlValues :: HasBit(ctrl, ControlValues[k])
  }

  /** The value a key contributes to the control word: its bit when the key is true. */
  function ControlTerm(control: map<string, bool>, key: string): nat
    requires key in control && key in ControlValues
  {
    if control[key] then ControlValues[key] else 0
  }

  /** The control word a control map stands for. */
  function ControlWord(control: map<string, bool>): nat
    requires ControlValues.Keys <= control.Keys
  {
    ControlTerm(control, "self_relative") + ControlTerm(control, "rm_control_valid")
    + ControlTerm(control, "sacl_protected") + ControlTerm(control, "dacl_protected")
    + ControlTerm(control, "sacl_auto_inherited") + ControlTerm(control, "dacl_auto_inherited")
    + ControlTerm(control, "sacl_computed_inheritance_required")
    + ControlTerm(control, "dacl_computed_inheritance_required")
    + ControlTerm(control, "server_security") + ControlTerm(control, "dacl_trusted")
    + ControlTerm(control, "sacl_defaulted") + ControlTerm(control, "sacl_present")
    + ControlTerm(control, "dacl_defaulted") + ControlTerm(control, "dacl_present")
    + ControlTerm(control, "group_defaulted") + ControlTerm(control, "owner_defaulted")
  }

  /** `SID(bytes_le=data[offset:])` when the offset is not zero, None when it is. */
  function SidAt(data: seq<Byte>, offset: nat): (r: Result<Option<Sid>, PyError>)
    ensures r.Err? ==> r.error == ValueError
    ensures r.Ok? <==> offset == 0 || ParseBytes(Drop(data, offset)).Ok?
    ensures r.Ok? ==> (r.value.Some? <==> offset != 0)
    ensures r.Ok? && r.value.Some? ==> ParseBytes(Drop(data, offset)) == Ok(r.value.value)
  {
    if offset == 0 then Ok(None)
    else
      var sid :- ParseBytes(Drop(data, offset));
      Ok(Some(sid))
  }

  /** `ACL.from_binary(data[offset:])` when `present` is set and the offset is not zero,
      None otherwise. */
  function AclAt(data: seq<Byte>, present: bool, offset: nat): (r: Result<Option<Acl>, PyError>)
    ensures r.Err? ==> r.error == ValueError
    ensures r.Ok? <==> !present || offset == 0 || ParseAcl(Drop(data, offset)).Ok?
    ensures r.Ok? ==> (r.value.Some? <==> present && offset != 0)
    ensures r.Ok? && r.value.Some? ==> ParseAcl(Drop(data, offset)) == Ok(r.value.value)
  {
    if !present || offset == 0 then Ok(None)
    else
      var acl :- ParseAcl(Drop(data, offset));
      Ok(Some(acl))
  }

  /** `SecurityDescriptor.from_binary(data)` for bytes: the `<BBHIIII` header (revision,
      sbz1, control word, owner, group, SACL and DACL offsets) from the first 20 bytes,
      then the parts the offsets and the present bits select. A short header is the
      `struct.error` the method turns into ValueError; the SID and ACL parsers raise
      ValueError themselves. */
  function ParseSecurityDescriptor(data: seq<Byte>): (r: Result<SecurityDescriptor, PyError>)
    ensures r.Err? ==> r.error == ValueError
    ensures |data| < HeaderSize ==> r.Err?
  {
    var header := Slice(data, 0, HeaderSize);
    if |header| != HeaderSize then Err(ValueError)
    else
      var control := ConvertControl(UnpackLE(header[2..4]));
      var ownerSid :- SidAt(data, UnpackLE(header[4..8]));
      var groupSid :- SidAt(data, UnpackLE(header[8..12]));
      var sacl :- AclAt(data, control["sacl_present"], UnpackLE(header[12..16]));
      var dacl :- AclAt(data, control["dacl_present"], UnpackLE(header[16..20]));
      Ok(SecurityDescriptor(header[0] as nat, header[1] as nat, control, ownerSid, groupSid, sacl, dacl))
  }

  /** `SecurityDescriptor.from_binary(data)`: anything but bytes is a TypeError. */
  function FromBinary(arg: PyArg): (r: Result<SecurityDescriptor, PyError>)
    ensures !arg.PyBytes? <==> r == Err(TypeError)
    ensures arg.PyBytes? ==> r == ParseSecurityDescriptor(arg.bytes)
  {
    match arg
    case PyBytes(data) => ParseSecurityDescriptor(data)
    case _ => Err(TypeError)
  }

  // ---------------------------------------------------------------------------
  // Lemmas

  /** Unfolds `ControlValues` key by key for the lemmas below. */
  lemma ControlBits()
    ensures ControlValues["self_relative"] == 0x8000 && ControlValues["rm_control_valid"] == 0x4000
    ensures ControlValues["sacl_protected"] == 0x2000 && ControlValues["dacl_protected"] == 0x1000
    ensures ControlValues["sacl_auto_inherited"] == 0x800 && ControlValues["dacl_auto_inherited"] == 0x400
    ensures ControlValues["sacl_computed_inheritance_required"] == 0x200
    ensures ControlValues["dacl_computed_inheritance_required"] == 0x100
    ensures ControlValues["server_security"] == 0x80 && ControlValues["dacl_trusted"] == 0x40
    ensures ControlValues["sacl_defaulted"] == 0x20 && ControlValues["sacl_present"] == 0x10
    ensures ControlValues["dacl_defaulted"] == 0x8 && ControlValues["dacl_present"] == 0x4
    ensures ControlValues["group_defaulted"] == 0x2 && ControlValues["owner_defaulted"] == 0x1
  {
  }

  /** Each key of the decoded map contributes exactly its bit of the control word. */
  lemma ControlTermBit(ctrl: nat, key: string, bit: nat)
    requires key in ControlValues && ControlValues[key] == bit
    ensures ControlTerm(ConvertControl(ctrl), key) == BitValue(ctrl, bit)
  {
  }

  /** A self-relative descriptor with both a SACL and a DACL, control word 0x8014: exactly
      `self_relative`, `sacl_present` and `dacl_present` are true. */
  lemma ControlExample()
    ensures var c := ConvertControl(0x8014);
      c["self_relative"] && !c["rm_control_valid"] && !c["sacl_protected"]
      && !c["dacl_protected"] && !c["sacl_auto_inherited"] && !c["dacl_auto_inherited"]
      && !c["sacl_computed_inheritance_required"] && !c["dacl_computed_inheritance_required"] && !c["server_security"]
      && !c["dacl_trusted"] && !c["sacl_defaulted"] && c["sacl_present"]
      && !c["dacl_defaulted"] && c["dacl_present"] && !c["group_defaulted"]
      && !c["owner_defaulted"]
  {
    ControlBits();
    assert HasBit(0x8014, 0x8000);
    assert !HasBit(0x8014, 0x4000);
    assert !HasBit(0x8014, 0x2000);
    assert !HasBit(0x8014, 0x1000);
    assert !HasBit(0x8014, 0x800);
    assert !HasBit(0x8014, 0x400);
    assert !HasBit(0x8014, 0x200);
    assert !HasBit(0x8014, 0x100);
    assert !HasBit(0x8014, 0x80);
    assert !HasBit(0x8014, 0x40);
    assert !HasBit(0x8014, 0x20);
    assert HasBit(0x8014, 0x10);
    assert !HasBit(0x8014, 0x8);
    assert HasBit(0x8014, 0x4);
    assert !HasBit(0x8014, 0x2);
    assert !HasBit(0x8014, 0x1);
  }

  /** The control word of the decoded map is the sum of the 16 bits the keys read. */
  lemma ControlWordBits(ctrl: nat)
    ensures ControlWord(ConvertControl(ctrl)) ==
      BitValue(ctrl, 0x8000) + BitValue(ctrl, 0x4000) + BitValue(ctrl, 0x2000) + BitValue(ctrl, 0x1000) + BitValue(ctrl, 0x800) + BitValue(ctrl, 0x400) + BitValue(ctrl, 0x200) + BitValue(ctrl, 0x100) + BitValue(ctrl, 0x80) + BitValue(ctrl, 0x40) + BitValue(ctrl, 0x20) + BitValue(ctrl, 0x10) + BitValue(ctrl, 0x8) + BitValue(ctrl, 0x4) + BitValue(ctrl, 0x2) + BitValue(ctrl, 0x1)
  {
    ControlBits();
    ControlTermBit(ctrl, "self_relative", 0x8000);
    ControlTermBit(ctrl, "rm_control_valid", 0x4000);
    ControlTermBit(ctrl, "sacl_protected", 0x2000);
    ControlTermBit(ctrl, "dacl_protected", 0x1000);
    ControlTermBit(ctrl, "sacl_auto_inherited", 0x800);
    ControlTermBit(ctrl, "dacl_auto_inherited", 0x400);
    ControlTermBit(ctrl, "sacl_computed_inheritance_required", 0x200);
    ControlTermBit(ctrl, "dacl_computed_inheritance_required", 0x100);
    ControlTermBit(ctrl, "server_security", 0x80);
    ControlTermBit(ctrl, "dacl_trusted", 0x40);
    ControlTermBit(ctrl, "sacl_defaulted", 0x20);
    ControlTermBit(ctrl, "sacl_present", 0x10);
    ControlTermBit(ctrl, "dacl_defaulted", 0x8);
    ControlTermBit(ctrl, "dacl_present", 0x4);
    ControlTermBit(ctrl, "group_defaulted", 0x2);
    ControlTermBit(ctrl, "owner_defaulted", 0x1);
  }

  /** Decoding the control word loses none of its 16 bits. */
  lemma ControlRoundTrip(ctrl: nat)
    ensures ControlWord(ConvertControl(ctrl)) == ctrl % 0x10000
  {
    ControlWordBits(ctrl);
    LowBits(ctrl);
  }

  /** The low 16 bits of a number are the sum of its single bits below 0x10000. */
  lemma LowBits(ctrl: nat)
    ensures ctrl % 0x10000 ==
      BitValue(ctrl, 0x8000) + BitValue(ctrl, 0x4000) + BitValue(ctrl, 0x2000) + BitValue(ctrl, 0x1000) + BitValue(ctrl, 0x800) + BitValue(ctrl, 0x400) + BitValue(ctrl, 0x200) + BitValue(ctrl, 0x100) + BitValue(ctrl, 0x80) + BitValue(ctrl, 0x40) + BitValue(ctrl, 0x20) + BitValue(ctrl, 0x10) + BitValue(ctrl, 0x8) + BitValue(ctrl, 0x4) + BitValue(ctrl, 0x2) + BitValue(ctrl, 0x1)
  {
    BitSumLow(ctrl);
    BitSumIsValue(ctrl, 16);
    Pow2Values();
  }

  /** Two control words of 16 bits decode to the same map only if they are equal. */
  lemma ControlInjective(c1: nat, c2: nat)
    requires c1 < 0x10000 && c2 < 0x10000 && ConvertControl(c1) == ConvertControl(c2)
    ensures c1 == c2
  {
    ControlRoundTrip(c1);
    ControlRoundTrip(c2);
    DivModUnique(c1, 0x10000, 0, c1);
    DivModUnique(c2, 0x10000, 0, c2);
  }

  /** A descriptor decodes iff the header is complete and every part it selects decodes. */
  lemma DescriptorAccepted(data: seq<Byte>)
    ensures ParseSecurityDescriptor(data).Ok? <==>
      && |data| >= HeaderSize
      && SidAt(data, UnpackLE(data[4..8])).Ok?
      && SidAt(data, UnpackLE(data[8..12])).Ok?
      && AclAt(data, HasBit(UnpackLE(data[2..4]), 0x10), UnpackLE(data[12..16])).Ok?
      && AclAt(data, HasBit(UnpackLE(data[2..4]), 0x4), UnpackLE(data[16..20])).Ok?
  {
    if |data| >= HeaderSize {
      HeaderFields(data);
      ControlBits();
    }
  }

  /** The fields of a decoded descriptor: revision and sbz1 are bytes 0 and 1, the control
      map decodes the little-endian word at 2, and each part is what its offset selects. */
  lemma DescriptorFields(data: seq<Byte>)
    requires ParseSecurityDescriptor(data).Ok?
    ensures var sd := ParseSecurityDescriptor(data).value;
      && sd.revision == data[0] as nat
      && sd.sbz1 == data[1] as nat
      && sd.control == ConvertControl(UnpackLE(data[2..4]))
      && Ok(sd.ownerSid) == SidAt(data, UnpackLE(data[4..8]))
      && Ok(sd.groupSid) == SidAt(data, UnpackLE(data[8..12]))
      && Ok(sd.sacl) == AclAt(data, sd.control["sacl_present"], UnpackLE(data[12..16]))
      && Ok(sd.dacl) == AclAt(data, sd.control["dacl_present"], UnpackLE(data[16..20]))
  {
    HeaderFields(data);
  }

  /** The first 20 bytes, sliced as `data[:20]` is. */
  lemma HeaderFields(data: seq<Byte>)
    requires |data| >= HeaderSize
    ensures var header := Slice(data, 0, HeaderSize);
      && |header| == HeaderSize && header[0] == data[0] && header[1] == data[1]
      && header[2..4] == data[2..4] && header[4..8] == data[4..8] && header[8..12] == data[8..12]
      && header[12..16] == data[12..16] && header[16..20] == data[16..20]
  {
  }

  /** Without the present bit the SACL is None whatever its offset; with it and a zero
      offset it is None too. */
  lemma SaclNeedsPresentBit(data: seq<Byte>)
    requires ParseSecurityDescriptor(data).Ok?
    ensures var sd := ParseSecurityDescriptor(data).value;
      sd.sacl.Some? <==> HasBit(UnpackLE(data[2..4]), 0x10) && UnpackLE(data[12..16]) != 0
  {
    DescriptorFields(data);
    ControlBits();
  }

  /** The same for the DACL and its present bit. */
  lemma DaclNeedsPresentBit(data: seq<Byte>)
    requires ParseSecurityDescriptor(data).Ok?
    ensures var sd := ParseSecurityDescriptor(data).value;
      sd.dacl.Some? <==> HasBit(UnpackLE(data[2..4]), 0x4) && UnpackLE(data[16..20]) != 0
  {
    DescriptorFields(data);
    ControlBits();
  }

  /** A header with every offset zero decodes on its own: no SID and no ACL is read. */
  lemma EmptyDescriptor(data: seq<Byte>)
    requires |data| >= HeaderSize
    requires UnpackLE(data[4..8]) == 0 && UnpackLE(data[8..12]) == 0
    requires UnpackLE(data[12..16]) == 0 && UnpackLE(data[16..20]) == 0
    ensures ParseSecurityDescriptor(data).Ok?
    ensures var sd := ParseSecurityDescriptor(data).value;
      sd.ownerSid.None? && sd.groupSid.None? && sd.sacl.None? && sd.dacl.None?
  {
    DescriptorAccepted(data);
    DescriptorFields(data);
  }

  /** The test's inputs: an integer and a string are TypeErrors, six bytes a ValueError. */
  lemma FromBinaryExamples()
    ensures FromBinary(PyOther) == Err(TypeError)
    ensures FromBinary(PyStr("INVALID")) == Err(TypeError)
    ensures FromBinary(PyBytes([0x05, 0x0A, 0x48, 0x00, 0x07, 0x00])) == Err(ValueError)
  {
  }
}
