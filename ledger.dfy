/*
 * The refresh-token ledger: one row per issued refresh token, and the
 * revoke-everything-of-one-user step that logout performs
 * (src/auth/routes.py, the loop of `logout`).
 */
module Ledger {
  import opened AuthTypes

  /** One row as logout leaves it: an unrevoked row of `uid` becomes revoked. */
  function RevokeIfOwned(rec: RefreshRecord, uid: Uid): (r: RefreshRecord) {
    if rec.userUid == uid && !rec.revoked then rec.(revoked := true) else rec
  }

  /**
   * The table after every unrevoked row of `uid` has been revoked: rows keep
   * their jti and owner, rows of `uid` end up revoked, and every other row
   * keeps its flag (so no flag ever goes from revoked back to unrevoked).
   */
  function RevokedFor(s: seq<RefreshRecord>, uid: Uid): (r: seq<RefreshRecord>)
    ensures |r| == |s|
    ensures forall k :: 0 <= k < |s| ==> r[k].jti == s[k].jti && r[k].userUid == s[k].userUid
    ensures forall k :: 0 <= k < |s| ==> r[k].revoked == (s[k].revoked || s[k].userUid == uid)
  {
    if s == [] then []
    else [RevokeIfOwned(s[0], uid)] + RevokedFor(s[1..], uid)
  }

  /** Revoking everything of one user a second time changes nothing. */
  lemma RevokedForIdempotent(s: seq<RefreshRecord>, uid: Uid)
    ensures RevokedFor(RevokedFor(s, uid), uid) == RevokedFor(s, uid)
  {
  }

  /** Rows of other users are untouched, and no row of `uid` stays unrevoked. */
  lemma RevokedForSeparates(s: seq<RefreshRecord>, uid: Uid, k: nat)
    requires k < |s|
    ensures s[k].userUid != uid ==> RevokedFor(s, uid)[k] == s[k]
    ensures s[k].userUid == uid ==> RevokedFor(s, uid)[k] == s[k].(revoked := true)
  {
  }

  /** The ledger table; logout flips flags of its rows in place. */
  class RefreshLedger {
    var table: array<RefreshRecord>

    constructor (rows: seq<RefreshRecord>)
      ensures fresh(table) && table[..] == rows
    {
      table := new RefreshRecord[|rows|](i requires 0 <= i < |rows| => rows[i]);
    }

    /**
     * Sets `revoked` on every unrevoked row of `uid`, one row at a time.
     * The source first selects those rows (in no stated order) and then
     * loops over them; a scan that tests the same condition on each row
     * visits the same rows, and each row is updated independently of the
     * others, so the order does not affect the outcome.
     */
    method RevokeAllFor(uid: Uid)
      modifies table
      ensures table[..] == RevokedFor(old(table[..]), uid)
    {
      var i := 0;
      while i < table.Length
        invariant 0 <= i <= table.Length
        invariant forall k :: 0 <= k < i ==> table[k] == RevokeIfOwned(old(table[k]), uid)
        invariant forall k :: i <= k < table.Length ==> table[k] == old(table[k])
      {
        if table[i].userUid == uid && !table[i].revoked {
          table[i] := table[i].(revoked := true);
        }
        i := i + 1;
      }
      ghost var before := old(table[..]);
      ghost var spec := RevokedFor(before, uid);
      forall k | 0 <= k < table.Length ensures table[k] == spec[k] {
        assert table[k] == RevokeIfOwned(before[k], uid);
      }
    }
  }
}
