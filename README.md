# PyLDAP / bonsai core in Dafny

This project models two parts of the PyLDAP (bonsai) client library and proves properties of them.

The Active Directory decoders of `src/bonsai/active_directory/` are pure functions from bytes or text to records or errors:

- The security identifier (SID), in its string form `S-1-<authority>-<sub>...` and its little-endian packet form (sections 2.4.2.1 and 2.4.2.2 of [MS-DTYP]). The model covers the two parsers, `str`, the `bytes_le` serialiser and `==`.
- The access control entry (ACE) and the access control list (ACL) of sections 2.4.4 and 2.4.5 of [MS-DTYP]. The model covers the header fields, the flag and rights sets, the object part with its two optional GUIDs, the trustee SID, the application data, and the ACE loop of `ACL.from_binary`.
- The self-relative security descriptor of section 2.4.6 of [MS-DTYP]. The model covers its control map and its four optional parts found by offset.

Python's raised exceptions become the `Err` side of a `Result`. Its dynamic argument types become `PyArg`, so every `TypeError` path is modelled. Bytes are `seq<Byte>`. Integers are unbounded. Every `struct` field width is written out: `<B`, `<H`, `<I`, `>L` and `>Q`.

The pending-operation bookkeeping of `pyldap/ldapconnection.c` is imperative:

- `Connection` is a class holding `pending_ops` (a map from message id to `SearchIter`), the dict's key insertion order, the page size, the sort list and the async flag.
- `Searching`, `Result` and `Close` change that state in place.
- The `SearchIter` buffer is rebuilt by an append loop.
- The server-control array is an `array` filled through a running counter.

Every libldap call is a parameter of the method that makes it. This covers control creation, search submission, `ldap_result`, `ldap_parse_result`, the page-response cookie, abandon and unbind. For each outcome of those calls, the model states the table, buffer and cookie transitions the C code performs on integer message ids. The C code's own keys are decimal strings, and what that does to `Close` is recorded under "## Findings".

Where the code departs from [MS-DTYP] or from what the code evidently intends, the model follows the code:

- The ACE access mask is read big-endian (`acl.py:100`).
- `str` always prints revision 1.
- The authority is printed in hex only when it is strictly above 2^32.
- `SYSTEM_AUDIT_OBJECT` keeps application data.
- `GENERIC_WRITE` is 0x4000000, so the standard bit 0x40000000 decodes to no right (`AclFormat.GenericWriteExamples`).
- Registering a message id that is already pending silently replaces its iterator rather than failing (`ldapconnection.c:363`).
- An extended response returns None (`ldapconnection.c:683-684`) rather than taking the generic-completion path.
- After a search result, the result code of `ldap_parse_result` is examined but its return code is not (`ldapconnection.c:653-666`).

Modules (one per file):

- `Outcome`: Option and Result.
- `ByteCodec`: byte slices, little- and big-endian integers, single-bit tests.
- `PyText`: `str`, `hex`, `int`, `split` and `join` on ASCII digit strings.
- `PyValues`: Python exceptions and argument kinds.
- `SidFormat`, `AclFormat` and `SecurityDescriptorFormat`: the decoders.
- `LdapConnection`: the connection.

## Model

| member | source | states |
|---|---|---|
| ByteCodec.UnpackBE | src/bonsai/active_directory/sid.py:38-40 | the big-endian value of n bytes (the shifted sum over the authority bytes) is below 256^n |
| ByteCodec.UnpackPackBE | src/bonsai/active_directory/sid.py:91 | unpacking an n-byte big-endian packing gives x mod 256^n, so `pack(">Q", a)[2:]` keeps the low 48 bits |
| ByteCodec.PackUnpackBE | src/bonsai/active_directory/sid.py:91 | packing the value of a byte string back to its length gives the same bytes |
| ByteCodec.UnpackPackU32s | src/bonsai/active_directory/sid.py:35-37 | reading back packed `<I` words gives the words |
| ByteCodec.PackUnpackU32s | src/bonsai/active_directory/sid.py:93-99 | packing the `<I` words read from a multiple-of-4 byte string gives the bytes |
| ByteCodec.BitSumIsValue | src/bonsai/active_directory/acl.py:133 | the sum of the set bits below 2^n is the value mod 2^n, the basis of every flag decoding |
| PyText.IntDecimal | src/bonsai/active_directory/sid.py:21 | `int(t)` succeeds iff t is a non-empty string of decimal digits |
| PyText.IntHex | src/bonsai/active_directory/sid.py:23 | `int(t, 16)` succeeds iff, after an optional "0x" or "0X" prefix, at least one character is left and all are hex digits (so "0x", "0xZZ" and "g" fail); the value is that of the digits |
| PyText.Split | src/bonsai/active_directory/sid.py:18 | `split("-")` gives at least one piece, none containing a dash |
| PyText.SplitJoin | src/bonsai/active_directory/sid.py:18 | splitting the join of dash-free pieces gives the pieces back |
| PyText.DigitsRoundTrip | src/bonsai/active_directory/sid.py:46-51 | the digits `str` or `hex` prints denote the number |
| PyText.CanonicalRoundTrip | src/bonsai/active_directory/sid.py:21-25 | a canonical digit string is what `str` prints of its value |
| PyText.IntOfStr | src/bonsai/active_directory/sid.py:21 | `int(str(n)) == n` |
| PyText.IntOfHex | src/bonsai/active_directory/sid.py:23 | `int(hex(n), 16) == n` |
| PyText.HexMarkers | src/bonsai/active_directory/sid.py:23 | `hex(n)` contains "0x" and `str(n)` does not |
| SidFormat.ParseDecimals | src/bonsai/active_directory/sid.py:25 | the subauthority tuple exists iff every piece is a decimal, and holds their values in order |
| SidFormat.ParseString | src/bonsai/active_directory/sid.py:14-27 | Ok iff there are at least three pieces, the first is "S", and the revision, authority and subauthorities are numeric; revision, authority (hex iff it contains "0x") and subauthorities are read from pieces 1, 2 and 3..; every failure is ValueError |
| SidFormat.ToString | src/bonsai/active_directory/sid.py:44-55 | `str(sid)` begins "S-1-" |
| SidFormat.ToStringPieces | src/bonsai/active_directory/sid.py:44-55 | `str(sid)` joins "S", "1", the authority text and the subauthorities, with "0" for none |
| SidFormat.ParseBytes | src/bonsai/active_directory/sid.py:28-42 | Ok iff the data holds 8 + 4·count bytes, count being byte 1; revision is byte 0, authority bytes 2..7 big-endian, subauthorities little-endian words from 8; failure is ValueError |
| SidFormat.BytesLe | src/bonsai/active_directory/sid.py:87-99 | Ok iff the revision and count fit a byte, the authority fits `>Q` and each subauthority fits `<I`; then of length 8 + 4·n; otherwise struct.error |
| SidFormat.NewSid | src/bonsai/active_directory/sid.py:7-42 | both arguments raise TypeError; a str_rep that is not str or a bytes_le that is not bytes raises TypeError; otherwise the matching parser |
| SidFormat.Eq | src/bonsai/active_directory/sid.py:60-70 | field-wise equality with a SID, `str(sid) == other` with a string, NotImplemented otherwise |
| SidFormat.ParseToString | src/bonsai/active_directory/sid.py:14-55 | parsing `str(x)` gives x with revision 1 and [0] for no subauthorities |
| SidFormat.StringRoundTrip | src/bonsai/active_directory/sid.py:14-55 | `SID(str_rep=str(x)) == x` for revision 1 and at least one subauthority |
| SidFormat.ToStringInjective | src/bonsai/active_directory/sid.py:44-68 | on those SIDs, equal strings iff equal SIDs |
| SidFormat.CanonicalAuthorityRoundTrip | src/bonsai/active_directory/sid.py:45-49 | a canonical authority text parses to a value `str` prints as that text |
| SidFormat.CanonicalStringRoundTrip | src/bonsai/active_directory/sid.py:14-55 | `str(SID(str_rep=s)) == s` for every canonical s |
| SidFormat.ToStringCanonical | src/bonsai/active_directory/sid.py:44-55 | every string `str` prints is canonical |
| SidFormat.AuthorityTextCanonical | src/bonsai/active_directory/sid.py:45-49 | the authority text is canonical decimal up to 2^32 and canonical "0x" hex above |
| SidFormat.AuthorityTextParses | src/bonsai/active_directory/sid.py:22-24 | the authority text parses back to the authority and has no dash |
| SidFormat.AuthorityHexIffLarge | src/bonsai/active_directory/sid.py:45-49 | the printed authority carries "0x" iff the authority is above 2^32 |
| SidFormat.RevisionNotPrinted | src/bonsai/active_directory/sid.py:55-66 | any two SIDs differing only in revision are unequal but print alike |
| SidFormat.EmptySubauthoritiesPrintAsZero | src/bonsai/active_directory/sid.py:50-54 | for every revision and authority, no subauthorities print as the single subauthority 0, while the two SIDs are unequal |
| SidFormat.HashAgreesWithEq | src/bonsai/active_directory/sid.py:60-73 | equal SIDs hash alike, and a SID equal to a string hashes as it |
| SidFormat.ParseBytesIgnoresTrailing | src/bonsai/active_directory/sid.py:32-37 | trailing bytes do not change the binary parse |
| SidFormat.BytesRoundTrip | src/bonsai/active_directory/sid.py:88-99 | decoding `bytes_le` gives the SID back with the authority reduced to its low 48 bits |
| SidFormat.BytesRoundTripExact | src/bonsai/active_directory/sid.py:88-99 | the round trip is exact for revision and count below 256, authority below 2^48 and 32-bit subauthorities |
| SidFormat.ParseThenBytes | src/bonsai/active_directory/sid.py:32-40 | re-encoding a parsed SID gives exactly the 8 + 4·count bytes it was read from |
| SidFormat.NotAnSidRejected | tests/test_ad_sid.py:27-36 | "NOT-A-SID" and "NOT" raise ValueError |
| SidFormat.EmptyFieldsRejected | tests/test_ad_sid.py:29-30 | "S--" raises ValueError |
| SidFormat.MissingAuthorityRejected | tests/test_ad_sid.py:31-32 | "S-1" raises ValueError |
| SidFormat.BadAuthorityRejected | tests/test_ad_sid.py:33-34 | "S-1-NOT-SID" raises ValueError |
| SidFormat.WrongArgumentTypes | src/bonsai/active_directory/sid.py:10-31 | non-str str_rep, non-bytes bytes_le and both arguments raise TypeError |
| SidFormat.EveryoneExample | tests/test_ad_sid.py:45-54 | "S-1-1-0" parses to authority 1 and subauthorities (0,) and prints back |
| SidFormat.ShortPacketsRejected | tests/test_ad_sid.py:7-12 | the two short packets raise ValueError |
| SidFormat.PacketExample | tests/test_ad_sid.py:17-22 | the sample packet decodes to revision 1, authority 5 and its five subauthorities |
| AclFormat.AceFlags | src/bonsai/active_directory/acl.py:133 | the flag set only holds `ACEFlag` members |
| AclFormat.Rights | src/bonsai/active_directory/acl.py:162-163 | the rights set only holds `ACERight` members |
| AclFormat.GuidAt | src/bonsai/active_directory/acl.py:114-119 | a GUID is read iff its flag is set, and then needs 16 bytes there, else ValueError |
| AclFormat.ParseObjectPart | src/bonsai/active_directory/acl.py:96-119 | non-object types have no GUIDs and the trustee at 8; object types end at 12 + 16 per GUID flag set |
| AclFormat.ParseAce | src/bonsai/active_directory/acl.py:92-143 | short input and types of 20 or more are ValueError; type, flags, size (`<H`) and mask (`>L`) as read; application data iff the type is one of the six listed; plain types read the trustee SID at 8 |
| AclFormat.AceFromBinary | src/bonsai/active_directory/acl.py:94-95 | non-bytes is TypeError, bytes are parsed |
| AclFormat.ParseAces | src/bonsai/active_directory/acl.py:199-203 | exactly count ACEs, or ValueError |
| AclFormat.ParseAcl | src/bonsai/active_directory/acl.py:193-208 | short input is ValueError; revision in {2, 4}, sbz1, size, sbz2 as read and count ACEs |
| AclFormat.AclFromBinary | src/bonsai/active_directory/acl.py:193-208 | non-bytes is TypeError; otherwise what the ACL parse gives |
| AclFormat.ReadAces | src/bonsai/active_directory/acl.py:198-203 | the loop reading count ACEs and advancing by each declared size gives the list parse |
| AclFormat.AclFailed | src/bonsai/active_directory/acl.py:200-208 | an ACE that fails fails the ACL with ValueError |
| AclFormat.AclParsed | src/bonsai/active_directory/acl.py:197-206 | with a known revision the ACL holds the header fields and the ACEs read |
| AclFormat.AclBadRevision | src/bonsai/active_directory/acl.py:204 | a revision other than 2 or 4 is ValueError |
| AclFormat.FlagByteRoundTrip | src/bonsai/active_directory/acl.py:133 | the flag set keeps every bit of the flag byte except 0x20 |
| AclFormat.AceFlagsInjective | src/bonsai/active_directory/acl.py:133 | flag bytes decode alike only if they differ at most in bit 0x20 |
| AclFormat.AceFlagsExamples | src/bonsai/active_directory/acl.py:10-17 | bit 0x20 decodes to no flag, 0xff to all seven |
| AclFormat.MaskBits | src/bonsai/active_directory/acl.py:43-63 | a 32-bit mask is the sum of its listed rights and its unlisted bits |
| AclFormat.RightsRoundTrip | src/bonsai/active_directory/acl.py:162-163 | the rights set keeps exactly the mask bits some member covers |
| AclFormat.GenericWriteExamples | src/bonsai/active_directory/acl.py:45 | mask 0x40000000 has no right; mask 0x4000000 has GENERIC_WRITE alone |
| AclFormat.ObjectAceLayout | src/bonsai/active_directory/acl.py:112-119 | object type GUID at 12 iff flag 0x1, inherited-object GUID after it iff flag 0x2 |
| AclFormat.AceTrustee | src/bonsai/active_directory/acl.py:120-130 | the trustee SID is read where the object part ends; application data runs from after it to the declared size |
| AclFormat.PlainAceAccepted | src/bonsai/active_directory/acl.py:96-120 | a plain ACE of a known type with a readable SID at 8 parses |
| AclFormat.ObjectAceAccepted | src/bonsai/active_directory/acl.py:102-120 | an ACE of an object type with its flags present parses iff the GUIDs its flags announce fit and a SID can be read where they end |
| AclFormat.AceListLayout | src/bonsai/active_directory/acl.py:198-203 | ACE i of a parsed list is read at 8 plus the sizes of ACEs 0..i-1 |
| AclFormat.AceListFromLayout | src/bonsai/active_directory/acl.py:198-203 | conversely, ACEs read at those offsets are the list parse |
| SecurityDescriptorFormat.ConvertControl | src/bonsai/active_directory/__init__.py:28-48 | the control map has exactly the 16 keys, each mapping to whether its bit is set |
| SecurityDescriptorFormat.ControlTermBit | src/bonsai/active_directory/__init__.py:30-48 | each of the 16 keys of the decoded map contributes exactly its own bit of the control word |
| SecurityDescriptorFormat.ControlExample | src/bonsai/active_directory/__init__.py:30-48 | the control word 0x8014 decodes to exactly self_relative, sacl_present and dacl_present true |
| SecurityDescriptorFormat.ControlRoundTrip | src/bonsai/active_directory/__init__.py:30-48 | the control map loses nothing of the low 16 bits of the control word |
| SecurityDescriptorFormat.ControlInjective | src/bonsai/active_directory/__init__.py:30-48 | distinct 16-bit control words give distinct maps |
| SecurityDescriptorFormat.SidAt | src/bonsai/active_directory/__init__.py:67-68 | None iff the offset is 0; otherwise the SID parsed there, or ValueError |
| SecurityDescriptorFormat.AclAt | src/bonsai/active_directory/__init__.py:69-72 | an ACL iff present and the offset is nonzero; otherwise None; failure is ValueError |
| SecurityDescriptorFormat.ParseSecurityDescriptor | src/bonsai/active_directory/__init__.py:55-75 | input shorter than the 20-byte header is ValueError; every failure is ValueError |
| SecurityDescriptorFormat.FromBinary | src/bonsai/active_directory/__init__.py:51-54 | non-bytes is TypeError; bytes are parsed |
| SecurityDescriptorFormat.DescriptorAccepted | src/bonsai/active_directory/__init__.py:57-73 | the parse succeeds iff the header is there and each present part parses at its offset |
| SecurityDescriptorFormat.DescriptorFields | src/bonsai/active_directory/__init__.py:57-73 | revision and sbz1 are bytes 0 and 1, the control map decodes bytes 2..3, and the parts sit at their offsets |
| SecurityDescriptorFormat.SaclNeedsPresentBit | src/bonsai/active_directory/__init__.py:69-70 | a SACL iff sacl_present (0x10) is set and its offset is nonzero |
| SecurityDescriptorFormat.DaclNeedsPresentBit | src/bonsai/active_directory/__init__.py:71-72 | a DACL iff dacl_present (0x4) is set and its offset is nonzero |
| SecurityDescriptorFormat.EmptyDescriptor | src/bonsai/active_directory/__init__.py:67-73 | a header with all offsets zero parses with no SIDs and no ACLs |
| SecurityDescriptorFormat.FromBinaryExamples | tests/test_ad_securitydescriptor.py:8-13 | 0 and "INVALID" raise TypeError; a 6-byte input raises ValueError |
| LdapConnection.SearchIter.constructor | pyldap/ldapconnection.c:430-433 | a new iterator has no buffer and no cookie |
| LdapConnection.InsertKeyKeeps | pyldap/ldapconnection.c:363 | inserting a key keeps the dict's keys distinct and adds exactly that key |
| LdapConnection.RemoveKeyKeeps | pyldap/ldapconnection.c:622 | deleting a key removes exactly that key |
| LdapConnection.RemoveFirstKey | pyldap/ldapconnection.c:211-214 | deleting the first key leaves the others in order |
| LdapConnection.ServerControls | pyldap/ldapconnection.c:312-313 | one control per condition: page size above 1 and a sort list |
| LdapConnection.InitialCookie | pyldap/ldapconnection.c:529-536 | a cookie iff page size > 0, and then empty |
| LdapConnection.CString | pyldap/ldapconnection.c:574 | the characters of the identity before the first NUL |
| LdapConnection.Whoami | pyldap/ldapconnection.c:559-574 | an error iff the request fails, with that code; "anonym" for a missing or empty identity; otherwise the identity up to its first NUL |
| LdapConnection.FirstFailure | pyldap/ldapconnection.c:211-231 | the position of the first failing abandon, all earlier ones succeeding |
| LdapConnection.ToList | pyldap/ldapconnection.c:545-549 | `list()` of the polled value: errors pass, a list or an iterator's buffer is kept, None and True are a TypeError |
| LdapConnection.Connection.constructor | pyldap/ldapconnection.c:158-191 | an empty table, the client's page size, its sort list only when non-empty, and the async flag |
| LdapConnection.Connection.BuildServerControls | pyldap/ldapconnection.c:311-344 | no array iff there is no control; the page control before the sort control, then a NULL slot; a failed creation is an internal error |
| LdapConnection.Connection.Searching | pyldap/ldapconnection.c:300-375 | a failure leaves the table unchanged; success maps msgid to the iterator, replacing any earlier one, and returns msgid |
| LdapConnection.Connection.DeleteKey | pyldap/ldapconnection.c:695 | the key leaves the table and the key order |
| LdapConnection.Connection.SearchResult | pyldap/ldapconnection.c:616-682 | an unknown id is an internal error; otherwise the id is removed whatever the code, the buffer is exactly the message's entries, NO_SUCH_OBJECT gives the buffer, other non-success codes fail, and success or partial results overwrite the cookie and give the iterator |
| LdapConnection.Connection.Result | pyldap/ldapconnection.c:577-702 | an engine error fails with the session code; timeout, entry and extended responses give None; all of these leave the table alone; a search result as above; any other response fails on a non-success code, else removes its id and gives True; outside the search-result branch the id's iterator keeps its buffer and cookie |
| LdapConnection.Connection.Close | pyldap/ldapconnection.c:198-242 | keys are removed in order, each before its abandon; the first failing abandon stops with its error, the processed keys gone and the rest kept; otherwise the table is empty and the unbind code decides |
| LdapConnection.Connection.Search | pyldap/ldapconnection.c:529-552 | a failed submission leaves the table and raises SystemError when a requested page or sort control could not be built, else the LDAP error of the search call; otherwise only msgid's entry changes: async returns msgid and keeps a fresh iterator with the initial cookie and no buffer under it, as does a sync poll that does not consume the id (`PollKeepsEntry`), while every other sync poll removes it; sync without paging returns the flattened list; sync with paging returns the polled value for every outcome |
| LdapConnection.StringKeysLoseIds | pyldap/ldapconnection.c:211-242 | as written, with the decimal-string keys `Searching` stores, every pending search is abandoned under id -1 and a close that otherwise succeeds raises SystemError |
| LdapConnection.StringKeyExample | pyldap/ldapconnection.c:211-224 | one pending search with id 5: the abandon goes to -1, not 5, and the close raises SystemError |
| LdapConnection.IntKeysKeepIds | pyldap/ldapconnection.c:211-242 | with integer keys each search is abandoned under its own id and a successful close returns None |

## Left out

- BER and libldap: control creation, `ldap_search_ext`, `ldap_result`, `ldap_parse_result`, the page-response control, `ldap_abandon_ext`, `_LDAP_unbind` and `ldap_whoami_s` are foreign calls over the network. Their return codes, messages and cookies are method parameters.
- The Windows and non-Windows cookie branches (`ldapconnection.c:667-678`) are one parameter, the cookie the reply carries. Their return code is not checked in the source, so it is absent from the model.
- `connecting` (session set-up, StartTLS, credential extraction and bind), `LDAPConnection_Add`, `LDAPConnection_DelEntry` and the argument parsing at the top of `LDAPConnection_Search` are not part of this model. They are CPython attribute lookups and foreign calls.
- Entry materialisation: `LDAPEntry_FromLDAPMessage` is defined outside `ldapconnection.c` and is not modelled. A reply carries the already materialised entries, so its failure path (`ldapconnection.c:639-649`) is not modelled.
- Out-of-memory paths, reference counting and the GIL release around the blocking poll are CPython plumbing. The blocking and zero-timeout polls differ only in what `ldap_result` returns, which is a parameter.
- The table of `Connection` has integer message-id keys, not the `sprintf` decimal strings the C code stores. The string keys and what `Close` does with them are modelled apart (see "## Findings"). The 8-byte buffer the strings are written into is not modelled.
- Connection.constructor: the page size is stored as the unbounded integer, not truncated through `(int)PyLong_AsLong`.
- Connection.SearchResult: on a non-success code the source releases the buffer but keeps the pointer. The model keeps the rebuilt buffer, since a released Python list has no value to model.
- ToList: `list()` of an iterator is its buffer. The search iterator's `__next__`, which can fetch further pages, is not modelled.
- The `PyDict_DelItem` failure in `Close` (`ldapconnection.c:214-219`) cannot happen, because each key comes from the table's own key list. The model proves the key is present instead of modelling that branch.
- ParseString: Python's `int()` leniency (surrounding whitespace, underscores, a sign, and non-ASCII Unicode decimal digits such as Arabic-Indic ones) is not modelled. Only plain decimal digits, and hex digits after an optional "0x" or "0X" prefix, are accepted.
- IntDecimal: since Python 3.11, `int()` of a decimal string of more than 4300 digits raises ValueError, and so does `str()` of such an integer. The model has no such limit, so IntDecimal, Str, IntOfStr and the string round trips of `SidFormat` hold at every size.
- Whoami: `PyUnicode_FromString` decodes UTF-8 and raises UnicodeDecodeError on invalid bytes. The model's identity is already characters, so that failure is not modelled.
- `uuid.UUID` is kept as its 16 raw bytes. Its text form is not modelled.
- NewSid: a SID built with neither argument leaves its fields unset, so the model requires one argument.
- `__repr__` (`sid.py:57-58`) is a display string and is not modelled.
- `tests/test_ldapvaluelist.py` tests `LDAPValueList`, which this model does not cover.
- The sample security descriptors in `tests/test_ad_securitydescriptor.py:14-42` are read from `.bin` fixture files whose bytes are not reproduced here.
- `tests/test_ad_sid.py` calls `SID.from_binary` and `SID.from_string`. These are read as `SID(bytes_le=...)` and `SID(str_rep=...)`, the constructors `sid.py` defines.

## Findings

| source | as written | input that shows it | evidently intended | confidence | as-written member | corrected member |
|---|---|---|---|---|---|---|
| pyldap/ldapconnection.c:211-212 | `Searching` stores each iterator under the decimal string of its id (`ldapconnection.c:362-363`), and `Close` reads the id back with `(int)PyLong_AsLong(key)`, which gives -1 and sets a TypeError for a string | a connection with one pending search, id 5: `ldap_abandon_ext` is called with -1, and after the unbind `Py_None` is returned with the TypeError still set, which CPython raises as SystemError | abandon each pending search under its own id and return None | medium, not executed | LdapConnection.StringKeyExample | LdapConnection.Connection.Close |
