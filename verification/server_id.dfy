/** _mongoc_get_server_id_from_opts: reads the optional "serverId" option. */
module ServerId {
  import opened Wrappers
  import opened Errors
  import opened Bson

  const UInt32Modulus: nat := 0x1_0000_0000

  /** The outcome of the call: its return value, the `*server_id` it leaves
      behind, and the error it fills in (None when `*error` is not written). */
  datatype ServerIdResult = ServerIdResult(ok: bool, serverId: uint32, error: Option<Error>)

  /** The value of the "serverId" option, when the options are there and
      hold one. */
  function RequestedServerId(opts: Option<Document>): Option<Value> {
    if opts.None? then None else Find(opts.value, "serverId")
  }

  /** _mongoc_get_server_id_from_opts(opts, domain, code, &server_id, &error)
      as written. `*server_id` is reset to 0 first. Missing options or a
      missing "serverId" succeed with 0. A value that is not an int32/int64,
      or is not positive, fails with the caller's domain and code and leaves
      0. A positive integer is stored cast to uint32, so it is reduced
      modulo 2^32. */
  function GetServerIdFromOpts(opts: Option<Document>, domain: ErrorDomain, code: ErrorCode): (r: ServerIdResult)
    ensures r.ok <==> r.error.None?
    ensures r.error.Some? ==> r.error.value == Error(domain, code)
    ensures !r.ok ==> r.serverId == 0
    ensures RequestedServerId(opts).None? ==> r == ServerIdResult(true, 0, None)
    ensures RequestedServerId(opts).Some? ==>
      var v := RequestedServerId(opts).value;
      && (r.ok <==> HoldsInt(v) && AsInt64(v) > 0)
      && (r.ok ==> r.serverId == AsInt64(v) % UInt32Modulus)
  {
    match RequestedServerId(opts)
    case None => ServerIdResult(true, 0, None)
    case Some(v) =>
      if !HoldsInt(v) then ServerIdResult(false, 0, Some(Error(domain, code)))
      else if AsInt64(v) <= 0 then ServerIdResult(false, 0, Some(Error(domain, code)))
      else ServerIdResult(true, AsInt64(v) % UInt32Modulus, None)
  }

  /** Options holding no "serverId" field. */
  predicate NoServerId(doc: Document) {
    forall i :: 0 <= i < |doc| ==> doc[i].key != "serverId"
  }

  /** The first "serverId" field is found wherever it stands. */
  lemma FindServerId(before: Document, v: Value, after: Document)
    requires NoServerId(before)
    ensures Find(before + [Field("serverId", v)] + after, "serverId") == Some(v)
  {
    var doc := before + [Field("serverId", v)] + after;
    var r := Find(doc, "serverId");
    assert doc[|before|] == Field("serverId", v);
    var i :| 0 <= i < |doc| && doc[i] == Field("serverId", r.value)
             && forall j :: 0 <= j < i ==> doc[j].key != "serverId";
    assert i == |before|;
  }

  /** Every genuine server id (1..2^32-1), stored in the options as an int32
      or an int64 among any other options, reads back unchanged. */
  lemma ServerIdRoundTrip(before: Document, asInt32: bool, id: uint32, after: Document, domain: ErrorDomain, code: ErrorCode)
    requires NoServerId(before)
    requires 1 <= id
    requires asInt32 ==> id < 0x8000_0000
    ensures var v := if asInt32 then Int32(id) else Int64(id);
      GetServerIdFromOpts(Some(before + [Field("serverId", v)] + after), domain, code) == ServerIdResult(true, id, None)
  {
    var v := if asInt32 then Int32(id) else Int64(id);
    FindServerId(before, v, after);
  }

  /** The discrepancy: a positive int64 at or above 2^32 passes the ">= 1"
      check, and the cast then turns 2^32 into 0, which callers read as "no
      serverId", and 2^32 + 5 into 5, a different server. */
  lemma ServerIdTruncates(domain: ErrorDomain, code: ErrorCode)
    ensures GetServerIdFromOpts(Some([Field("serverId", Int64(0x1_0000_0000))]), domain, code) == ServerIdResult(true, 0, None)
    ensures GetServerIdFromOpts(Some([Field("serverId", Int64(0x1_0000_0005))]), domain, code) == ServerIdResult(true, 5, None)
  {
    FindServerId([], Int64(0x1_0000_0000), []);
    FindServerId([], Int64(0x1_0000_0005), []);
  }

  /** _mongoc_get_server_id_from_opts as evidently intended: a value that
      does not fit in uint32 is refused like a non-positive one, so success
      with 0 means exactly that no serverId was given, and a successful read
      returns the value given. */
  function GetServerIdFromOptsChecked(opts: Option<Document>, domain: ErrorDomain, code: ErrorCode): (r: ServerIdResult)
    ensures r.ok <==> r.error.None?
    ensures r.error.Some? ==> r.error.value == Error(domain, code)
    ensures !r.ok ==> r.serverId == 0
    ensures r.ok && r.serverId == 0 <==> RequestedServerId(opts).None?
    ensures r.ok && RequestedServerId(opts).Some? ==>
      HoldsInt(RequestedServerId(opts).value) && r.serverId == AsInt64(RequestedServerId(opts).value)
    ensures RequestedServerId(opts).Some? && HoldsInt(RequestedServerId(opts).value) ==>
      (r.ok <==> 1 <= AsInt64(RequestedServerId(opts).value) < UInt32Modulus)
  {
    match RequestedServerId(opts)
    case Some(v) =>
      if HoldsInt(v) && AsInt64(v) >= UInt32Modulus then ServerIdResult(false, 0, Some(Error(domain, code)))
      else GetServerIdFromOpts(opts, domain, code)
    case None => GetServerIdFromOpts(opts, domain, code)
  }

  /** The corrected reading differs from the one as written only on values
      that do not fit in uint32. */
  lemma CheckedAgreesBelowModulus(opts: Option<Document>, domain: ErrorDomain, code: ErrorCode)
    requires RequestedServerId(opts).Some? && HoldsInt(RequestedServerId(opts).value) ==>
      AsInt64(RequestedServerId(opts).value) < UInt32Modulus
    ensures GetServerIdFromOptsChecked(opts, domain, code) == GetServerIdFromOpts(opts, domain, code)
  {
  }
}
