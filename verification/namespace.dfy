/** _mongoc_get_db_name: the database part of a "db.collection" namespace. */
module Namespace {
  import opened Wrappers
  import opened CStrings

  /** strstr(s, ".") with a one-character needle: the position of the first
      occurrence of `c`, or None when `c` does not occur. */
  function IndexOf(s: string, c: char): (r: Option<nat>)
    ensures r.None? <==> c !in s
    ensures r.Some? ==> r.value < |s| && s[r.value] == c && c !in s[..r.value]
  {
    if |s| == 0 then None
    else if s[0] == c then Some(0)
    else
      match IndexOf(s[1..], c)
      case None => None
      case Some(i) =>
        assert s[..i + 1] == [s[0]] + s[1..][..i];
        Some(i + 1)
  }

  /** _mongoc_get_db_name(ns, db) with a destination buffer of `nsMax`
      bytes (MONGOC_NAMESPACE_MAX): the string left in `db`. It is the part
      of `ns` before the first '.', or all of `ns` when there is no dot, cut
      to the nsMax - 1 characters the buffer can hold. */
  function GetDbName(ns: CString, nsMax: Positive): (db: CString)
    ensures db <= ns
    ensures '.' !in db
    ensures |db| <= nsMax - 1
    ensures |db| < nsMax - 1 ==> |db| == |ns| || ns[|db|] == '.'
  {
    match IndexOf(ns, '.')
    case Some(dot) =>
      assert ns[..Min(dot + 1, nsMax) - 1] <= ns[..dot];
      StrNCopy(ns, Min(dot + 1, nsMax))
    case None => StrNCopy(ns, nsMax)
  }

  /** The length of the database name: the position of the first dot (or
      the whole namespace when there is none), capped at nsMax - 1. */
  lemma GetDbNameLength(ns: CString, nsMax: Positive)
    ensures |GetDbName(ns, nsMax)| == Min(match IndexOf(ns, '.') case Some(dot) => dot case None => |ns|, nsMax - 1)
  {
    var db := GetDbName(ns, nsMax);
    if |db| < nsMax - 1 && |db| < |ns| {
      assert ns[|db|] == '.';
      assert ns[..|db|] == db;
    }
  }

  /** The database name is the longest dot-free prefix of the namespace that
      fits the buffer: any other dot-free prefix that fits is a prefix of it. */
  lemma GetDbNameIsLongest(ns: CString, nsMax: Positive, p: string)
    requires p <= ns && '.' !in p && |p| <= nsMax - 1
    ensures p <= GetDbName(ns, nsMax)
  {
  }

  /** Splitting a namespace built from a database name and a collection name
      gives the database name back, provided it fits the buffer. */
  lemma {:induction false} GetDbNameOfNamespace(db: CString, coll: CString, nsMax: Positive)
    requires '.' !in db
    requires |db| < nsMax
    ensures NUL !in db + "." + coll
    ensures GetDbName(db + "." + coll, nsMax) == db
  {
    var ns := db + "." + coll;
    assert ns[..|db|] == db;
    assert ns[|db|] == '.';
    GetDbNameIsLongest(ns, nsMax, db);
  }

  /** The database name of a database name is itself. */
  lemma GetDbNameIdempotent(ns: CString, nsMax: Positive)
    ensures GetDbName(GetDbName(ns, nsMax), nsMax) == GetDbName(ns, nsMax)
  {
    var db := GetDbName(ns, nsMax);
    GetDbNameIsLongest(db, nsMax, db);
  }
}
