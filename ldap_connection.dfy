/** The pending-operation bookkeeping of the LDAP connection in pyldap/ldapconnection.c:
    the table from message ids to search iterators, the server controls a search is sent
    with, the classification of a polled result, and the abandon loop of `close`. Every
    libldap call is an input: its return code, the message it delivers and the cookie it
    parses are parameters of the methods. */
module LdapConnection {
  import opened Outcome
  import opened ByteCodec
  import PyText

  /** Result codes (section 4.1.9 of RFC 4511; `partialResults` is the LDAPv2 code 9
      libldap still defines). */
  const LdapSuccess: int := 0x00
  const LdapPartialResults: int := 0x09
  const LdapNoSuchObject: int := 0x20

  /** Message types `ldap_result` returns: the tags of searchResEntry, searchResDone and
      extendedResp (section 4.2 of RFC 4511). */
  const ResSearchEntry: int := 0x64
  const ResSearchResult: int := 0x65
  const ResExtended: int := 0x78

  /** The `berval` a paged search carries from one page to the next. */
  datatype Cookie = Cookie(bytes: seq<Byte>)

  /** An entry of a search result, as `LDAPEntry_FromLDAPMessage` materialises it. */
  datatype Entry = Entry(dn: string)

  /** One key of the client's sort list. */
  datatype SortKey = SortKey(attribute: string, reverse: bool)

  /** The server controls a search request can carry. */
  datatype Control = PageControl(size: int, cookie: Option<Cookie>) | SortControl(keys: seq<SortKey>)

  /** The exceptions the connection raises: the LDAP error for a result code, the
      `PyErr_BadInternalCall` of a failed control creation or a table inconsistency, the
      TypeError of `list()` on a value that is not iterable, and the error CPython reports
      for a function that returns a value with an exception pending. `InternalError` and
      `SystemError` are one Python exception class, SystemError, with two messages; they
      are kept apart to record which path raised it. */
  datatype ConnError = LdapError(code: int) | InternalError | ListTypeError | SystemError

  /** What `ldap_result` delivered for a message, and what parsing it gives: the entries
      in arrival order, the return code of `ldap_parse_result`, the result code it reads,
      and the cookie the page-response control holds. */
  datatype Reply = Reply(entries: seq<Entry>, parseRc: int, resultCode: int, cookie: Option<Cookie>)

  /** The Python values `LDAPConnection_Result` returns. */
  datatype ResultValue = NoneValue | TrueValue | IterValue(iter: SearchIter) | ListValue(entries: seq<Entry>)

  /** The Python values `LDAPConnection_Search` returns: the message id of an
      asynchronous search, the polled result, or that result turned into a list. */
  datatype SearchValue = MsgId(msgid: int) | Polled(value: ResultValue) | Entries(entries: seq<Entry>)

  /** The part of an `LDAPSearchIter` the connection reads and writes. */
  class SearchIter {
    var buffer: Option<seq<Entry>>
    var cookie: Option<Cookie>

    /** `LDAPSearchIter_New`: no buffer and no cookie yet. */
    constructor ()
      ensures buffer == None && cookie == None
    {
      buffer := None;
      cookie := None;
    }
  }

  // ---------------------------------------------------------------------------
  // The key order of a Python dict

  predicate NoDuplicates(s: seq<int>) {
    forall i, j :: 0 <= i < j < |s| ==> s[i] != s[j]
  }

  /** The keys of a dict after `d[k] = v`: a new key goes last, an existing one keeps its
      place. */
  function InsertKey(order: seq<int>, k: int): seq<int> {
    if k in order then order else order + [k]
  }

  /** The keys of a dict after `del d[k]`. */
  function RemoveKey(order: seq<int>, k: int): (r: seq<int>)
    ensures |r| <= |order|
  {
    if order == [] then []
    else if order[0] == k then RemoveKey(order[1..], k)
    else [order[0]] + RemoveKey(order[1..], k)
  }

  /** The entries of the table whose keys are not in `ks`. */
  function Without(m: map<int, SearchIter>, ks: seq<int>): (r: map<int, SearchIter>)
    ensures forall k :: k in r <==> k in m && k !in ks
    ensures forall k :: k in r ==> r[k] == m[k]
  {
    map k | k in m && k !in ks :: m[k]
  }

  lemma InsertKeyKeeps(order: seq<int>, k: int)
    requires NoDuplicates(order)
    ensures NoDuplicates(InsertKey(order, k))
    ensures forall x :: x in InsertKey(order, k) <==> x in order || x == k
  {
  }

  /** Removing a key removes that key alone and keeps the others distinct. */
  lemma {:induction false} RemoveKeyKeeps(order: seq<int>, k: int)
    requires NoDuplicates(order)
    ensures NoDuplicates(RemoveKey(order, k))
    ensures forall x :: x in RemoveKey(order, k) <==> x in order && x != k
  {
    if order != [] {
      var rest := order[1..];
      assert NoDuplicates(rest) by {
        forall i, j | 0 <= i < j < |rest| ensures rest[i] != rest[j] {
          assert rest[i] == order[i + 1] && rest[j] == order[j + 1];
        }
      }
      RemoveKeyKeeps(rest, k);
      assert order == [order[0]] + rest;
      if order[0] != k {
        var r := RemoveKey(order, k);
        assert r == [order[0]] + RemoveKey(rest, k);
        assert order[0] !in rest by {
          forall j | 0 <= j < |rest| ensures rest[j] != order[0] {
            assert rest[j] == order[j + 1];
          }
        }
      }
    }
  }

  /** Removing a key that is not there changes nothing. */
  lemma {:induction false} RemoveAbsentKey(order: seq<int>, k: int)
    requires k !in order
    ensures RemoveKey(order, k) == order
  {
    if order != [] {
      assert order[1..] + [] == order[1..];
      assert k !in order[1..] by {
        forall j | 0 <= j < |order[1..]| ensures order[1..][j] != k {
          assert order[1..][j] == order[j + 1];
        }
      }
      RemoveAbsentKey(order[1..], k);
      assert order == [order[0]] + order[1..];
    }
  }

  /** Removing the first of distinct keys leaves the others in order. */
  lemma RemoveFirstKey(order: seq<int>)
    requires order != [] && NoDuplicates(order)
    ensures RemoveKey(order, order[0]) == order[1..]
  {
    assert order[0] !in order[1..] by {
      forall j | 0 <= j < |order[1..]| ensures order[1..][j] != order[0] {
        assert order[1..][j] == order[j + 1];
      }
    }
    RemoveAbsentKey(order[1..], order[0]);
  }

  // ---------------------------------------------------------------------------
  // Server controls, the search defaults and whoami

  /** The controls a search is sent with: a page control when the page size is above 1,
      then a sort control when there is a sort list. */
  function ServerControls(pageSize: int, sortList: Option<seq<SortKey>>, cookie: Option<Cookie>): (r: seq<Control>)
    ensures |r| == (if pageSize > 1 then 1 else 0) + (if sortList.Some? then 1 else 0)
  {
    (if pageSize > 1 then [PageControl(pageSize, cookie)] else [])
    + (if sortList.Some? then [SortControl(sortList.value)] else [])
  }

  /** The cookie a fresh search iterator starts with: an empty one for a paged client,
      none otherwise. */
  function InitialCookie(pageSize: int): (r: Option<Cookie>)
    ensures r.Some? <==> pageSize > 0
    ensures r.Some? ==> r.value.bytes == []
  {
    if pageSize > 0 then Some(Cookie([])) else None
  }

  /** `PyUnicode_FromString(s)`: the characters before the first NUL. */
  function CString(s: seq<char>): (r: seq<char>)
    ensures |r| <= |s| && r == s[..|r|] && '\0' !in r
    ensures |r| < |s| ==> s[|r|] == '\0'
  {
    if s == [] || s[0] == '\0' then []
    else
      var rest := CString(s[1..]);
      assert s[..|rest| + 1] == [s[0]] + s[1..][..|rest|];
      [s[0]] + rest
  }

  /** `LDAPConnection_Whoami`: the error of a failed request, "anonym" for a missing or
      empty authorization identity, the identity otherwise. */
  function Whoami(rc: int, authzid: Option<seq<char>>): (r: Result<string, ConnError>)
    ensures r.Err? <==> rc != LdapSuccess
    ensures r.Err? ==> r.error == LdapError(rc)
    ensures rc == LdapSuccess && (authzid.None? || authzid.value == []) ==> r == Ok("anonym")
    ensures rc == LdapSuccess && authzid.Some? && authzid.value != [] ==> r == Ok(CString(authzid.value))
  {
    if rc != LdapSuccess then Err(LdapError(rc))
    else if authzid.None? || |authzid.value| == 0 then Ok("anonym")
    else Ok(CString(authzid.value))
  }

  /** The first position whose abandon fails, or the number of keys when none does. */
  function FirstFailure(keys: seq<int>, abandonRc: int -> int): (n: nat)
    ensures n <= |keys|
    ensures forall i :: 0 <= i < n ==> abandonRc(keys[i]) == LdapSuccess
    ensures n < |keys| ==> abandonRc(keys[n]) != LdapSuccess
  {
    if keys == [] || abandonRc(keys[0]) != LdapSuccess then 0
    else 1 + FirstFailure(keys[1..], abandonRc)
  }

  /** `list(result)` in a synchronous search without paging: the error of the poll
      passes through, a list is copied, an iterator gives its buffer, and None or True are
      not iterable. The iterator code is not part of this model; for a search without
      paging its contents are its buffer. */
  method ToList(res: Result<ResultValue, ConnError>) returns (r: Result<seq<Entry>, ConnError>)
    ensures res.Err? ==> r == Err(res.error)
    ensures res.Ok? && res.value.ListValue? ==> r == Ok(res.value.entries)
    ensures res.Ok? && res.value.IterValue? ==>
      r == (if res.value.iter.buffer.Some? then Ok(res.value.iter.buffer.value) else Ok([]))
    ensures res.Ok? && (res.value.NoneValue? || res.value.TrueValue?) ==> r == Err(ListTypeError)
  {
    if res.Err? {
      return Err(res.error);
    }
    match res.value
    case ListValue(entries) =>
      r := Ok(entries);
    case IterValue(iter) =>
      r := if iter.buffer.Some? then Ok(iter.buffer.value) else Ok([]);
    case _ =>
      r := Err(ListTypeError);
  }

  // ---------------------------------------------------------------------------
  // The connection

  class Connection {
    /** `pending_ops`, keyed by message id instead of its decimal string. */
    var pendingOps: map<int, SearchIter>
    /** The insertion order of the keys of `pending_ops`, which `close` walks. */
    var keyOrder: seq<int>
    var pageSize: int
    var sortList: Option<seq<SortKey>>
    var async: bool
    /** Whether `_LDAP_unbind` has been called. */
    var unbound: bool

    /** The key order lists each key of the table once. */
    ghost predicate Valid()
      reads this
    {
      && NoDuplicates(keyOrder)
      && (forall k :: k in pendingOps <==> k in keyOrder)
    }

    /** `LDAPConnection_new` and `LDAPConnection_init`: an empty table, the client's page
        size, its sort list when that is not empty, and the `async` flag. The bind in
        `connecting` is not part of this model. */
    constructor (pageSize: int, sortKeys: seq<SortKey>, async: bool)
      ensures Valid()
      ensures this.pendingOps == map[] && this.keyOrder == []
      ensures this.pageSize == pageSize && this.async == async && !this.unbound
      ensures this.sortList == (if |sortKeys| > 0 then Some(sortKeys) else None)
    {
      this.pendingOps := map[];
      this.keyOrder := [];
      this.pageSize := pageSize;
      this.sortList := if |sortKeys| > 0 then Some(sortKeys) else None;
      this.async := async;
      this.unbound := false;
    }

    /** The control array of `LDAPConnection_Searching`: none when no control is needed;
        otherwise one slot per control and a terminating NULL, filled with a running
        counter. A control that cannot be created is an internal error. */
    method BuildServerControls(cookie: Option<Cookie>, createPageRc: int, createSortRc: int)
      returns (r: Result<array?<Option<Control>>, ConnError>)
      ensures r.Err? <==>
        (pageSize > 1 && createPageRc != LdapSuccess) || (sortList.Some? && createSortRc != LdapSuccess)
      ensures r.Err? ==> r.error == InternalError
      ensures r.Ok? ==>
        var cs := ServerControls(pageSize, sortList, cookie);
        && (r.value == null <==> cs == [])
        && (r.value != null ==>
              && fresh(r.value) && r.value.Length == |cs| + 1
              && (forall i :: 0 <= i < |cs| ==> r.value[i] == Some(cs[i]))
              && r.value[|cs|] == None)
    {
      var numOfCtrls := 0;
      if pageSize > 1 { numOfCtrls := numOfCtrls + 1; }
      if sortList.Some? { numOfCtrls := numOfCtrls + 1; }
      var serverCtrls: array?<Option<Control>> := null;
      if numOfCtrls > 0 {
        serverCtrls := new Option<Control>[numOfCtrls + 1](_ => None);
        numOfCtrls := 0;
      }
      if pageSize > 1 {
        if createPageRc != LdapSuccess {
          return Err(InternalError);
        }
        serverCtrls[numOfCtrls] := Some(PageControl(pageSize, cookie));
        numOfCtrls := numOfCtrls + 1;
        serverCtrls[numOfCtrls] := None;
      }
      if sortList.Some? {
        if createSortRc != LdapSuccess {
          return Err(InternalError);
        }
        serverCtrls[numOfCtrls] := Some(SortControl(sortList.value));
        numOfCtrls := numOfCtrls + 1;
        serverCtrls[numOfCtrls] := None;
      }
      r := Ok(serverCtrls);
    }

    /** `LDAPConnection_Searching`: build the controls, submit the search, and on success
        register the iterator under the new message id, replacing any iterator already
        there. A failure leaves the table as it was. */
    method Searching(iter: SearchIter, createPageRc: int, createSortRc: int, searchRc: int, msgid: int)
      returns (r: Result<int, ConnError>)
      requires Valid() && msgid > 0
      modifies this
      ensures Valid()
      ensures pageSize == old(pageSize) && sortList == old(sortList) && async == old(async)
      ensures unbound == old(unbound)
      ensures r.Ok? <==>
        && !((pageSize > 1 && createPageRc != LdapSuccess) || (sortList.Some? && createSortRc != LdapSuccess))
        && searchRc == LdapSuccess
      ensures r.Err? ==>
        && r.error == (if searchRc == LdapSuccess || (pageSize > 1 && createPageRc != LdapSuccess)
                          || (sortList.Some? && createSortRc != LdapSuccess)
                       then InternalError else LdapError(searchRc))
        && pendingOps == old(pendingOps) && keyOrder == old(keyOrder)
      ensures r.Ok? ==>
        && r.value == msgid
        && pendingOps == old(pendingOps)[msgid := iter]
        && keyOrder == InsertKey(old(keyOrder), msgid)
    {
      var ctrls := BuildServerControls(iter.cookie, createPageRc, createSortRc);
      if ctrls.Err? {
        return Err(ctrls.error);
      }
      if searchRc != LdapSuccess {
        return Err(LdapError(searchRc));
      }
      InsertKeyKeeps(keyOrder, msgid);
      pendingOps := pendingOps[msgid := iter];
      keyOrder := InsertKey(keyOrder, msgid);
      r := Ok(msgid);
    }

    /** Remove a key from the table and from the key order. */
    method DeleteKey(msgid: int)
      requires Valid() && msgid in pendingOps
      modifies this
      ensures Valid()
      ensures pendingOps == old(pendingOps) - {msgid} && keyOrder == RemoveKey(old(keyOrder), msgid)
      ensures pageSize == old(pageSize) && sortList == old(sortList) && async == old(async)
      ensures unbound == old(unbound)
    {
      RemoveKeyKeeps(keyOrder, msgid);
      pendingOps := pendingOps - {msgid};
      keyOrder := RemoveKey(keyOrder, msgid);
    }

    /** The search-result branch of `LDAPConnection_Result`: take the iterator out of
        the table, refill its buffer with the message's entries, then look at the result
        code. */
    method SearchResult(msgid: int, reply: Reply) returns (r: Result<ResultValue, ConnError>)
      requires Valid()
      modifies this, if msgid in pendingOps then {pendingOps[msgid]} else {}
      ensures Valid()
      ensures pageSize == old(pageSize) && sortList == old(sortList) && async == old(async)
      ensures unbound == old(unbound)
      ensures msgid !in old(pendingOps) ==>
        r == Err(InternalError) && pendingOps == old(pendingOps) && keyOrder == old(keyOrder)
      ensures msgid in old(pendingOps) ==>
        var iter := old(pendingOps)[msgid];
        && pendingOps == old(pendingOps) - {msgid}
        && keyOrder == RemoveKey(old(keyOrder), msgid)
        && iter.buffer == Some(reply.entries)
        && (reply.resultCode == LdapNoSuchObject ==>
              r == Ok(ListValue(reply.entries)) && iter.cookie == old(iter.cookie))
        && (reply.resultCode != LdapNoSuchObject && reply.resultCode != LdapSuccess
              && reply.resultCode != LdapPartialResults ==>
              r == Err(LdapError(reply.resultCode)) && iter.cookie == old(iter.cookie))
        && (reply.resultCode == LdapSuccess || reply.resultCode == LdapPartialResults ==>
              r == Ok(IterValue(iter)) && iter.cookie == reply.cookie)
    {
      if msgid !in pendingOps {
        return Err(InternalError);
      }
      var iter := pendingOps[msgid];
      DeleteKey(msgid);
      iter.buffer := Some([]);
      for i := 0 to |reply.entries|
        modifies iter
        invariant iter.buffer == Some(reply.entries[..i])
        invariant iter.cookie == old(iter.cookie)
      {
        assert reply.entries[..i + 1] == reply.entries[..i] + [reply.entries[i]];
        iter.buffer := Some(iter.buffer.value + [reply.entries[i]]);
      }
      assert reply.entries[..|reply.entries|] == reply.entries;
      var err := reply.resultCode;
      if err == LdapNoSuchObject {
        return Ok(ListValue(iter.buffer.value));
      }
      if err != LdapSuccess && err != LdapPartialResults {
        return Err(LdapError(err));
      }
      iter.cookie := reply.cookie;
      r := Ok(IterValue(iter));
    }

    /** `LDAPConnection_Result`: classify what polling `msgid` gave. An engine error
        raises the session's error code; a timeout, a lone entry and an extended response
        give None; a search result goes to `SearchResult`; any other response succeeds
        only with a success code, and then removes the message id and gives True. */
    method Result(msgid: int, pollRc: int, sessionCode: int, reply: Reply) returns (r: Result<ResultValue, ConnError>)
      requires Valid()
      modifies this, if msgid in pendingOps then {pendingOps[msgid]} else {}
      ensures Valid()
      ensures pageSize == old(pageSize) && sortList == old(sortList) && async == old(async)
      ensures unbound == old(unbound)
      ensures pollRc == -1 ==>
        r == Err(LdapError(sessionCode)) && pendingOps == old(pendingOps) && keyOrder == old(keyOrder)
      ensures pollRc == 0 || pollRc == ResSearchEntry || pollRc == ResExtended ==>
        r == Ok(NoneValue) && pendingOps == old(pendingOps) && keyOrder == old(keyOrder)
      ensures pollRc == ResSearchResult ==>
        if msgid in old(pendingOps) then
          var iter := old(pendingOps)[msgid];
          && pendingOps == old(pendingOps) - {msgid}
          && keyOrder == RemoveKey(old(keyOrder), msgid)
          && iter.buffer == Some(reply.entries)
          && r == (if reply.resultCode == LdapNoSuchObject then Ok(ListValue(reply.entries))
                   else if reply.resultCode != LdapSuccess && reply.resultCode != LdapPartialResults
                   then Err(LdapError(reply.resultCode))
                   else Ok(IterValue(iter)))
          && iter.cookie == (if reply.resultCode == LdapSuccess || reply.resultCode == LdapPartialResults
                             then reply.cookie else old(iter.cookie))
        else
          r == Err(InternalError) && pendingOps == old(pendingOps) && keyOrder == old(keyOrder)
      ensures pollRc !in {-1, 0, ResSearchEntry, ResSearchResult, ResExtended} ==>
        if reply.parseRc != LdapSuccess || reply.resultCode != LdapSuccess then
          r == Err(LdapError(reply.resultCode)) && pendingOps == old(pendingOps) && keyOrder == old(keyOrder)
        else if msgid in old(pendingOps) then
          r == Ok(TrueValue) && pendingOps == old(pendingOps) - {msgid}
          && keyOrder == RemoveKey(old(keyOrder), msgid)
        else
          r == Err(InternalError) && pendingOps == old(pendingOps) && keyOrder == old(keyOrder)
      ensures pollRc != ResSearchResult && msgid in old(pendingOps) ==>
        var iter := old(pendingOps)[msgid];
        iter.buffer == old(iter.buffer) && iter.cookie == old(iter.cookie)
    {
      if pollRc == -1 {
        return Err(LdapError(sessionCode));
      } else if pollRc == 0 || pollRc == ResSearchEntry || pollRc == ResExtended {
        return Ok(NoneValue);
      } else if pollRc == ResSearchResult {
        r := SearchResult(msgid, reply);
      } else {
        if reply.parseRc != LdapSuccess || reply.resultCode != LdapSuccess {
          return Err(LdapError(reply.resultCode));
        }
        if msgid !in pendingOps {
          return Err(InternalError);
        }
        DeleteKey(msgid);
        r := Ok(TrueValue);
      }
    }

    /** `LDAPConnection_Close`: walk a snapshot of the keys in order, removing each from
        the table before abandoning it; stop at the first abandon that fails, and unbind
        only once every abandon has succeeded. */
    method Close(abandonRc: int -> int, unbindRc: int) returns (r: Result<(), ConnError>)
      requires Valid()
      modifies this
      ensures Valid()
      ensures pageSize == old(pageSize) && sortList == old(sortList) && async == old(async)
      ensures var keys := old(keyOrder); var n := FirstFailure(keys, abandonRc);
        if n < |keys| then
          && r == Err(LdapError(abandonRc(keys[n])))
          && pendingOps == Without(old(pendingOps), keys[..n + 1])
          && keyOrder == keys[n + 1..]
          && unbound == old(unbound)
        else
          && r == (if unbindRc == LdapSuccess then Ok(()) else Err(LdapError(unbindRc)))
          && pendingOps == map[] && keyOrder == []
          && unbound
    {
      var keys := keyOrder;
      ghost var ops := pendingOps;
      var i := 0;
      assert keys[..0] == [];
      while i < |keys|
        invariant 0 <= i <= |keys| && Valid()
        invariant keyOrder == keys[i..]
        invariant pendingOps == Without(ops, keys[..i])
        invariant forall j :: 0 <= j < i ==> abandonRc(keys[j]) == LdapSuccess
        invariant pageSize == old(pageSize) && sortList == old(sortList) && async == old(async)
        invariant unbound == old(unbound)
      {
        var msgid := keys[i];
        // The deletion cannot fail: the key comes from the table's own key order.
        assert msgid in pendingOps;
        NextKey(keys, i, keyOrder);
        WithoutStep(ops, keys, i);
        DeleteKey(msgid);
        var rc := abandonRc(msgid);
        if rc != LdapSuccess {
          AbandonStops(keys, abandonRc, i);
          return Err(LdapError(rc));
        }
        i := i + 1;
      }
      AbandonsDone(keys, abandonRc);
      AllRemoved(ops, keys);
      unbound := true;
      if unbindRc != LdapSuccess {
        return Err(LdapError(unbindRc));
      }
      r := Ok(());
    }

    /** `LDAPConnection_Search` after its arguments are read: a fresh iterator, an empty
        cookie for a paged client, the search submitted; an asynchronous connection
        returns the message id, a synchronous one polls the result and, without paging,
        turns it into a list. The id stays registered, with the fresh iterator, exactly
        when the poll does not consume it (`PollKeepsEntry`). */
    method Search(createPageRc: int, createSortRc: int, searchRc: int, msgid: int,
                  pollRc: int, sessionCode: int, reply: Reply)
      returns (r: Result<SearchValue, ConnError>)
      requires Valid() && msgid > 0
      modifies this
      ensures Valid()
      ensures pageSize == old(pageSize) && sortList == old(sortList) && async == old(async)
      ensures unbound == old(unbound)
      ensures var failed := (pageSize > 1 && createPageRc != LdapSuccess)
                            || (sortList.Some? && createSortRc != LdapSuccess) || searchRc != LdapSuccess;
        && (failed ==>
              && r == Err(if (pageSize > 1 && createPageRc != LdapSuccess)
                             || (sortList.Some? && createSortRc != LdapSuccess)
                          then InternalError else LdapError(searchRc))
              && pendingOps == old(pendingOps) && keyOrder == old(keyOrder))
        && (!failed && (async || PollKeepsEntry(pollRc, reply)) ==>
              && msgid in pendingOps && fresh(pendingOps[msgid])
              && pendingOps == old(pendingOps)[msgid := pendingOps[msgid]]
              && pendingOps[msgid].cookie == InitialCookie(pageSize)
              && pendingOps[msgid].buffer == None
              && keyOrder == InsertKey(old(keyOrder), msgid))
        && (!failed && async ==> r == Ok(MsgId(msgid)))
        && (!failed && !async && !PollKeepsEntry(pollRc, reply) ==>
              && pendingOps == old(pendingOps) - {msgid}
              && keyOrder == RemoveKey(InsertKey(old(keyOrder), msgid), msgid))
        && (!failed && !async && pageSize < 1 ==> r == SyncList(pollRc, sessionCode, reply))
        && (!failed && !async && pageSize >= 1 ==>
              if pollRc == ResSearchResult
                 && (reply.resultCode == LdapSuccess || reply.resultCode == LdapPartialResults) then
                && r.Ok? && r.value.Polled? && r.value.value.IterValue?
                && fresh(r.value.value.iter)
                && r.value.value.iter.buffer == Some(reply.entries)
                && r.value.value.iter.cookie == reply.cookie
              else r == SyncPolled(pollRc, sessionCode, reply))
    {
      var iter := new SearchIter();
      if pageSize > 0 {
        iter.cookie := Some(Cookie([]));
      }
      var sent := Searching(iter, createPageRc, createSortRc, searchRc, msgid);
      if sent.Err? {
        return Err(sent.error);
      }
      if async {
        return Ok(MsgId(msgid));
      }
      var res := Result(msgid, pollRc, sessionCode, reply);
      if pageSize < 1 {
        var list := ToList(res);
        if list.Err? {
          return Err(list.error);
        }
        return Ok(Entries(list.value));
      }
      if res.Err? {
        return Err(res.error);
      }
      r := Ok(Polled(res.value));
    }
  }

  /** Whether polling a registered message id leaves it in the table: an engine error, a
      timeout, a lone entry, an extended response, or any other response that is not a
      search result and whose parse or result code is an error. */
  predicate PollKeepsEntry(pollRc: int, reply: Reply) {
    || pollRc == -1 || pollRc == 0 || pollRc == ResSearchEntry || pollRc == ResExtended
    || (pollRc != ResSearchResult && (reply.parseRc != LdapSuccess || reply.resultCode != LdapSuccess))
  }

  /** What a synchronous paged search returns for every poll outcome except a search
      result with a success code (which gives the iterator itself). */
  function SyncPolled(pollRc: int, sessionCode: int, reply: Reply): Result<SearchValue, ConnError>
    requires !(pollRc == ResSearchResult
               && (reply.resultCode == LdapSuccess || reply.resultCode == LdapPartialResults))
  {
    if pollRc == -1 then Err(LdapError(sessionCode))
    else if pollRc == 0 || pollRc == ResSearchEntry || pollRc == ResExtended then Ok(Polled(NoneValue))
    else if pollRc == ResSearchResult then
      if reply.resultCode == LdapNoSuchObject then Ok(Polled(ListValue(reply.entries)))
      else Err(LdapError(reply.resultCode))
    else if reply.parseRc != LdapSuccess || reply.resultCode != LdapSuccess then Err(LdapError(reply.resultCode))
    else Ok(Polled(TrueValue))
  }

  /** What a synchronous search without paging returns, given what polling its message
      id gives: the entries of a search result unless its code is an error, and a
      TypeError where the poll gives None or True. */
  function SyncList(pollRc: int, sessionCode: int, reply: Reply): Result<SearchValue, ConnError> {
    if pollRc == -1 then Err(LdapError(sessionCode))
    else if pollRc == 0 || pollRc == ResSearchEntry || pollRc == ResExtended then Err(ListTypeError)
    else if pollRc == ResSearchResult then
      if reply.resultCode == LdapNoSuchObject || reply.resultCode == LdapSuccess
         || reply.resultCode == LdapPartialResults
      then Ok(Entries(reply.entries))
      else Err(LdapError(reply.resultCode))
    else if reply.parseRc != LdapSuccess || reply.resultCode != LdapSuccess then Err(LdapError(reply.resultCode))
    else Err(ListTypeError)
  }

  // ---------------------------------------------------------------------------
  // The keys of `pending_ops` as the C code writes them

  /** A key of the `pending_ops` dict: the connection's table above uses integer keys;
      `Searching` as written stores the decimal string of the id instead
      (`sprintf(msgidstr, "%d", msgid)`, `PyDict_SetItemString`). */
  datatype DictKey = IntKey(value: int) | StrKey(text: string)

  /** The decimal text `%d` prints for an int. */
  function DecimalString(n: int): string {
    if n < 0 then "-" + PyText.Str(-n) else PyText.Str(n)
  }

  /** The key `Searching` stores for a message id, as written. */
  function StoredKey(msgid: int): DictKey {
    StrKey(DecimalString(msgid))
  }

  /** `(int)PyLong_AsLong(key)` and whether it leaves an exception pending: a string key
      is not an integer, so the call gives -1 with a TypeError set. */
  function AsLong(key: DictKey): (r: (int, bool)) {
    match key
    case IntKey(v) => (v, false)
    case StrKey(_) => (-1, true)
  }

  /** The id the loop of `Close` passes to `ldap_abandon_ext` for each key. */
  function AbandonedIds(keys: seq<DictKey>): (ids: seq<int>)
    ensures |ids| == |keys|
  {
    seq(|keys|, i requires 0 <= i < |keys| => AsLong(keys[i]).0)
  }

  /** What `Close` returns once every abandon and the unbind succeed: `Py_None`, which
      CPython reports as a SystemError when an exception is still pending. */
  function CloseOutcome(keys: seq<DictKey>): Result<(), ConnError> {
    if exists i :: 0 <= i < |keys| && AsLong(keys[i]).1 then Err(SystemError) else Ok(())
  }

  /** As written, every pending search is abandoned under id -1, and a successful close
      of a connection with a pending search raises SystemError. */
  lemma {:induction false} StringKeysLoseIds(msgids: seq<int>)
    ensures var keys := seq(|msgids|, i requires 0 <= i < |msgids| => StoredKey(msgids[i]));
      && (forall i :: 0 <= i < |msgids| ==> AbandonedIds(keys)[i] == -1)
      && (|msgids| >= 1 ==> CloseOutcome(keys) == Err(SystemError))
  {
    var keys := seq(|msgids|, i requires 0 <= i < |msgids| => StoredKey(msgids[i]));
    if |msgids| >= 1 {
      assert AsLong(keys[0]).1;
    }
  }

  /** A pending search with id 5, as written: the abandon goes to id -1. */
  lemma StringKeyExample()
    ensures AbandonedIds([StoredKey(5)]) == [-1] && AbandonedIds([StoredKey(5)]) != [5]
    ensures CloseOutcome([StoredKey(5)]) == Err(SystemError)
  {
    StringKeysLoseIds([5]);
    assert [StoredKey(5)] == seq(1, i requires 0 <= i < 1 => StoredKey([5][i]));
  }

  /** With integer keys, as the table of `Connection` holds them, each search is abandoned
      under its own id and a successful close returns None. */
  lemma {:induction false} IntKeysKeepIds(msgids: seq<int>)
    ensures var keys := seq(|msgids|, i requires 0 <= i < |msgids| => IntKey(msgids[i]));
      AbandonedIds(keys) == msgids && CloseOutcome(keys) == Ok(())
  {
  }

  /** The key order left once the keys before position i are removed loses its first
      key next. */
  lemma NextKey(keys: seq<int>, i: nat, order: seq<int>)
    requires i < |keys| && order == keys[i..] && NoDuplicates(order)
    ensures RemoveKey(order, keys[i]) == keys[i + 1..]
  {
    RemoveFirstKey(order);
    assert order[1..] == keys[i + 1..];
  }

  /** Removing one more key of the snapshot from the table. */
  lemma WithoutStep(ops: map<int, SearchIter>, keys: seq<int>, i: nat)
    requires i < |keys|
    ensures Without(ops, keys[..i]) - {keys[i]} == Without(ops, keys[..i + 1])
  {
    assert keys[..i + 1] == keys[..i] + [keys[i]];
  }

  /** Once every key of the snapshot is removed, nothing of the table is left. */
  lemma AllRemoved(ops: map<int, SearchIter>, keys: seq<int>)
    requires forall k :: k in ops ==> k in keys
    ensures Without(ops, keys[..|keys|]) == map[]
  {
    assert keys[..|keys|] == keys;
    var left := Without(ops, keys);
    assert forall k :: k !in left;
  }

  /** The state when the abandon at position i fails. */
  lemma AbandonStops(keys: seq<int>, abandonRc: int -> int, i: nat)
    requires i < |keys| && abandonRc(keys[i]) != LdapSuccess
    requires forall j :: 0 <= j < i ==> abandonRc(keys[j]) == LdapSuccess
    ensures FirstFailure(keys, abandonRc) == i
  {
  }

  /** Every abandon succeeded. */
  lemma AbandonsDone(keys: seq<int>, abandonRc: int -> int)
    requires forall j :: 0 <= j < |keys| ==> abandonRc(keys[j]) == LdapSuccess
    ensures FirstFailure(keys, abandonRc) == |keys|
  {
  }
}
