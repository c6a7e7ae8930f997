/** One-time passcodes for e-mail verification and password reset: a
    six-digit code is sent by mail, only its hash is stored, a code is good
    once and until it expires, a new code supersedes the unused ones for the
    same address and purpose, and resending is throttled by a cooldown.
    Time is in seconds; the random draw, the hash, the record id and the
    clock are parameters. */
module Otp {
  import opened Wrappers
  import opened Text
  import Sets

  datatype Purpose = EmailVerification | PasswordReset

  /** A row of `otp_codes`. */
  datatype OtpRecord = OtpRecord(
    email: string,
    codeHash: string,
    purpose: Purpose,
    expiresAt: real,
    isUsed: bool,
    usedAt: Option<real>,
    createdAt: real)

  /** `generate_otp`: `str(randbelow(900000) + 100000)`, for the draw
      `draw` of `randbelow`.  Always six digits without a leading zero. */
  function GenerateOtp(draw: nat): (code: string)
    requires draw < 900000
    ensures |code| == 6 && AllDigits(code) && code[0] != '0'
    ensures DecimalValue(code) == draw + 100000
  {
    DecimalLength(draw + 100000);
    DecimalRoundTrip(draw + 100000);
    NatToDecimal(draw + 100000)
  }

  /** Different draws give different codes. */
  lemma GenerateOtpInjective(d1: nat, d2: nat)
    requires d1 < 900000 && d2 < 900000
    ensures d1 != d2 ==> GenerateOtp(d1) != GenerateOtp(d2)
  {
    if GenerateOtp(d1) == GenerateOtp(d2) {
      DecimalInjective(d1 + 100000, d2 + 100000);
    }
  }

  /** An unused record for this address and purpose. */
  predicate Pending(rec: OtpRecord, email: string, purpose: Purpose) {
    rec.email == email && rec.purpose == purpose && !rec.isUsed
  }

  /** The table's invariant: at most one unused record per address and
      purpose, since issuing a code deletes the unused ones first. */
  ghost predicate AtMostOnePending(recs: map<int, OtpRecord>) {
    forall i, j :: i in recs && j in recs && Pending(recs[i], recs[j].email, recs[j].purpose) && !recs[j].isUsed ==> i == j
  }

  /** The delete at the start of `create_otp`: drops the unused records of
      this address and purpose. */
  function Invalidate(recs: map<int, OtpRecord>, email: string, purpose: Purpose): (r: map<int, OtpRecord>)
    ensures forall id :: id in r ==> !Pending(r[id], email, purpose)
  {
    map id | id in recs && !Pending(recs[id], email, purpose) :: recs[id]
  }

  /** The record `create_otp` inserts at time `now`. */
  function NewRecord(email: string, codeHash: string, purpose: Purpose, now: real, expireMinutes: int): (rec: OtpRecord)
    ensures Pending(rec, Lower(email), purpose) && rec.codeHash == codeHash
    ensures rec.expiresAt - rec.createdAt == 60.0 * expireMinutes as real && rec.createdAt == now
  {
    OtpRecord(Lower(email), codeHash, purpose, now + 60.0 * expireMinutes as real, false, None, now)
  }

  /** The condition of the `verify_otp` query: same lower-cased address,
      hash and purpose, unused and not yet expired. */
  predicate Verifiable(rec: OtpRecord, email: string, codeHash: string, purpose: Purpose, now: real) {
    rec.email == email && rec.codeHash == codeHash && rec.purpose == purpose && !rec.isUsed && rec.expiresAt > now
  }

  function MarkUsed(rec: OtpRecord, now: real): (r: OtpRecord)
    ensures r.isUsed && r.usedAt == Some(now)
    ensures r.(isUsed := rec.isUsed, usedAt := rec.usedAt) == rec
  {
    rec.(isUsed := true, usedAt := Some(now))
  }

  /** What `cleanup_expired_otps` deletes: expired strictly before `now`,
      or used. */
  predicate Stale(rec: OtpRecord, now: real) {
    rec.expiresAt < now || rec.isUsed
  }

  function StaleIds(recs: map<int, OtpRecord>, now: real): (ids: set<int>)
    ensures ids <= recs.Keys
  {
    set id | id in recs && Stale(recs[id], now)
  }

  function Cleaned(recs: map<int, OtpRecord>, now: real): (r: map<int, OtpRecord>)
    ensures r.Keys == recs.Keys - StaleIds(recs, now)
    ensures forall id :: id in r ==> r[id] == recs[id]
  {
    map id | id in recs && !Stale(recs[id], now) :: recs[id]
  }

  /** The records of this address and purpose created after `threshold`. */
  function RecentIds(recs: map<int, OtpRecord>, email: string, purpose: Purpose, threshold: real): (ids: set<int>)
    ensures ids <= recs.Keys
  {
    set id | id in recs && recs[id].email == email && recs[id].purpose == purpose && recs[id].createdAt > threshold
  }

  /** A record of `ids` created last. */
  lemma {:induction false} Latest(recs: map<int, OtpRecord>, ids: set<int>) returns (id: int)
    requires ids != {} && ids <= recs.Keys
    ensures id in ids && forall j :: j in ids ==> recs[j].createdAt <= recs[id].createdAt
    decreases |ids|
  {
    var x := Sets.Pick(ids);
    if forall j :: j in ids ==> recs[j].createdAt <= recs[x].createdAt {
      return x;
    }
    var z :| z in ids && recs[z].createdAt > recs[x].createdAt;
    var rest := ids - {x};
    assert z in rest;
    id := Latest(recs, rest);
    forall j | j in ids
      ensures recs[j].createdAt <= recs[id].createdAt
    {
      if j != x {
        assert j in rest;
      }
    }
  }

  lemma LatestExists(recs: map<int, OtpRecord>, ids: set<int>)
    requires ids != {} && ids <= recs.Keys
    ensures exists id :: id in ids && forall j :: j in ids ==> recs[j].createdAt <= recs[id].createdAt
  {
    var id := Latest(recs, ids);
  }

  /** `ORDER BY created_at DESC LIMIT 1` over the recent records: the
      creation time of the newest one, if any. */
  ghost function NewestCreation(recs: map<int, OtpRecord>, email: string, purpose: Purpose, threshold: real): (c: Option<real>)
    ensures var ids := RecentIds(recs, email, purpose, threshold);
      && (c.None? <==> ids == {})
      && (c.Some? ==>
            && (exists id :: id in ids && recs[id].createdAt == c.value)
            && (forall id :: id in ids ==> recs[id].createdAt <= c.value))
  {
    var ids := RecentIds(recs, email, purpose, threshold);
    if ids == {} then None
    else
      LatestExists(recs, ids);
      var id :| id in ids && forall j :: j in ids ==> recs[j].createdAt <= recs[id].createdAt;
      Some(recs[id].createdAt)
  }

  /** Python's `int(x)`: truncation toward zero. */
  function Trunc(x: real): (n: int)
    ensures x >= 0.0 ==> n as real <= x < n as real + 1.0
    ensures x < 0.0 ==> n as real - 1.0 < x <= n as real
  {
    if x >= 0.0 then x.Floor else -((-x).Floor)
  }

  /** The answer of `can_resend_otp` given the creation time of the newest
      record inside the cooldown window. */
  function ResendVerdict(newest: Option<real>, now: real, cooldown: int): (v: (bool, Option<int>))
  {
    match newest
    case None => (true, None)
    case Some(c) =>
      var remaining := Trunc(cooldown as real - (now - c));
      if remaining <= 0 then (true, None) else (false, Some(remaining))
  }

  /** A resend is allowed exactly when no code was issued inside the window
      or less than a second of it is left; otherwise the wait is the whole
      seconds left, at least one. */
  lemma ResendVerdictMeaning(newest: Option<real>, now: real, cooldown: int)
    ensures var v := ResendVerdict(newest, now, cooldown);
      && (v.0 <==> v.1.None?)
      && (v.0 <==> newest.None? || cooldown as real - (now - newest.value) < 1.0)
      && (!v.0 ==> 1 <= v.1.value
                   && v.1.value as real <= cooldown as real - (now - newest.value) < v.1.value as real + 1.0)
  {
  }

  /** Issuing a code: the new record is the only unused one of its address
      and purpose, every other record is kept, and the invariant holds. */
  lemma CreateMeaning(recs: map<int, OtpRecord>, email: string, purpose: Purpose, id: int, rec: OtpRecord)
    requires AtMostOnePending(recs) && id !in recs && Pending(rec, email, purpose)
    ensures var r := Invalidate(recs, email, purpose)[id := rec];
      && AtMostOnePending(r)
      && (forall j :: j in r && Pending(r[j], email, purpose) ==> j == id)
      && (forall j :: j in recs && !Pending(recs[j], email, purpose) ==> j in r && r[j] == recs[j])
      && r.Keys == recs.Keys - (set j | j in recs && Pending(recs[j], email, purpose)) + {id}
  {
  }

  /** A freshly issued code verifies until it expires, and no code issued
      before it for the same address and purpose does. */
  lemma VerifyAfterCreate(recs: map<int, OtpRecord>, email: string, purpose: Purpose, plainHash: string,
                          now: real, expireMinutes: int, id: int, t: real, oldHash: string)
    requires id !in recs && now <= t < now + 60.0 * expireMinutes as real
    ensures var r := Invalidate(recs, Lower(email), purpose)[id := NewRecord(email, plainHash, purpose, now, expireMinutes)];
      && Verifiable(r[id], Lower(email), plainHash, purpose, t)
      && forall j :: j in r && j != id ==> !Verifiable(r[j], Lower(email), oldHash, purpose, t)
  {
  }

  /** The record a successful verification finds is the only one it could
      have found. */
  lemma VerifiableUnique(recs: map<int, OtpRecord>, email: string, codeHash: string, purpose: Purpose, now: real, i: int, j: int)
    requires AtMostOnePending(recs) && i in recs && j in recs
    requires Verifiable(recs[i], email, codeHash, purpose, now) && Verifiable(recs[j], email, codeHash, purpose, now)
    ensures i == j
  {
    assert Pending(recs[i], recs[j].email, recs[j].purpose);
  }

  /** A code verifies at most once: after a success nothing verifies for
      that address, hash and purpose, at any later time. */
  lemma VerifyOnce(recs: map<int, OtpRecord>, email: string, codeHash: string, purpose: Purpose, now: real, id: int, later: real)
    requires AtMostOnePending(recs) && id in recs && Verifiable(recs[id], email, codeHash, purpose, now)
    ensures var r := recs[id := MarkUsed(recs[id], now)];
      forall j :: j in r ==> !Verifiable(r[j], email, codeHash, purpose, later)
  {
    var found := recs[id];
    var r := recs[id := MarkUsed(found, now)];
    forall j | j in r
      ensures !Verifiable(r[j], email, codeHash, purpose, later)
    {
      if j != id {
        assert r[j] == recs[j];
        assert !(Pending(recs[j], found.email, found.purpose) && !found.isUsed);
      }
    }
  }

  /** Marking a record used keeps the invariant. */
  lemma MarkUsedKeepsInvariant(recs: map<int, OtpRecord>, id: int, now: real)
    requires AtMostOnePending(recs) && id in recs
    ensures AtMostOnePending(recs[id := MarkUsed(recs[id], now)])
  {
    var r := recs[id := MarkUsed(recs[id], now)];
    forall i, j | i in r && j in r && Pending(r[i], r[j].email, r[j].purpose) && !r[j].isUsed
      ensures i == j
    {
      assert i != id && j != id;
      assert Pending(recs[i], recs[j].email, recs[j].purpose) && !recs[j].isUsed;
    }
  }

  /** Cleanup never removes a code that could still verify, and a code
      expiring exactly now is neither verifiable nor, while unused,
      removed. */
  lemma CleanupKeepsVerifiable(recs: map<int, OtpRecord>, email: string, codeHash: string, purpose: Purpose, now: real)
    ensures forall id :: id in recs && Verifiable(recs[id], email, codeHash, purpose, now) ==>
      id in Cleaned(recs, now) && Cleaned(recs, now)[id] == recs[id]
    ensures forall id :: id in recs && recs[id].expiresAt == now ==>
      !Verifiable(recs[id], email, codeHash, purpose, now) && (!recs[id].isUsed ==> id in Cleaned(recs, now))
  {
  }

  /** The count cleanup reports is the number of rows it removed. */
  lemma CleanupCount(recs: map<int, OtpRecord>, now: real)
    ensures |Cleaned(recs, now)| + |StaleIds(recs, now)| == |recs|
  {
    var kept := Cleaned(recs, now).Keys;
    var gone := StaleIds(recs, now);
    assert kept + gone == recs.Keys;
    assert kept * gone == {};
    assert |kept + gone| == |kept| + |gone|;
  }

  /** Right after issuing a code, a resend is refused for the whole
      cooldown (when no record claims a later creation time). */
  lemma ResendRefusedAfterCreate(recs: map<int, OtpRecord>, email: string, purpose: Purpose, codeHash: string,
                                 now: real, expireMinutes: int, id: int, cooldown: int)
    requires id !in recs && cooldown >= 1
    requires forall j :: j in recs ==> recs[j].createdAt <= now
    ensures var r := Invalidate(recs, Lower(email), purpose)[id := NewRecord(email, codeHash, purpose, now, expireMinutes)];
      ResendVerdict(NewestCreation(r, Lower(email), purpose, now - cooldown as real), now, cooldown) == (false, Some(cooldown))
  {
    var r := Invalidate(recs, Lower(email), purpose)[id := NewRecord(email, codeHash, purpose, now, expireMinutes)];
    var ids := RecentIds(r, Lower(email), purpose, now - cooldown as real);
    assert id in ids;
    var c := NewestCreation(r, Lower(email), purpose, now - cooldown as real);
    assert c.value >= now;
  }

  /** Once every code of the address and purpose is older than the
      cooldown, a resend is allowed. */
  lemma ResendAllowedAfterCooldown(recs: map<int, OtpRecord>, email: string, purpose: Purpose, now: real, cooldown: int)
    requires forall j :: j in recs && recs[j].email == email && recs[j].purpose == purpose ==>
      recs[j].createdAt <= now - cooldown as real
    ensures ResendVerdict(NewestCreation(recs, email, purpose, now - cooldown as real), now, cooldown) == (true, None)
  {
    var ids := RecentIds(recs, email, purpose, now - cooldown as real);
    assert forall id :: id !in ids;
    assert ids == {};
  }

  /** The `otp_codes` table. */
  class OtpTable {
    var records: map<int, OtpRecord>
    const hash: string -> string

    ghost predicate Valid()
      reads this
    {
      AtMostOnePending(records)
    }

    constructor (hash: string -> string)
      ensures Valid() && records == map[] && this.hash == hash
    {
      records := map[];
      this.hash := hash;
    }

    /** `create_otp`: deletes the unused codes of the address and purpose,
        stores the hash of a new code under the fresh id, expiring
        `expireMinutes` after `now`, and returns the plain code. */
    method CreateOtp(email: string, purpose: Purpose, draw: nat, now: real, expireMinutes: int, freshId: int)
      returns (plain: string)
      requires Valid() && draw < 900000 && freshId !in records
      modifies this
      ensures Valid()
      ensures plain == GenerateOtp(draw)
      ensures records == Invalidate(old(records), Lower(email), purpose)[freshId := NewRecord(email, hash(plain), purpose, now, expireMinutes)]
    {
      CreateMeaning(records, Lower(email), purpose, freshId, NewRecord(email, hash(GenerateOtp(draw)), purpose, now, expireMinutes));
      records := Invalidate(records, Lower(email), purpose);
      plain := GenerateOtp(draw);
      var codeHash := hash(plain);
      var expiresAt := now + 60.0 * expireMinutes as real;
      records := records[freshId := OtpRecord(Lower(email), codeHash, purpose, expiresAt, false, None, now)];
    }

    /** `verify_otp`: succeeds exactly when an unexpired unused record
        matches the address, the hash of the code and the purpose; that
        record is then marked used at `now`, and nothing changes on
        failure. */
    method VerifyOtp(email: string, code: string, purpose: Purpose, now: real) returns (ok: bool)
      requires Valid()
      modifies this
      ensures Valid()
      ensures ok <==> exists id :: id in old(records) && Verifiable(old(records)[id], Lower(email), hash(code), purpose, now)
      ensures ok ==> exists id :: id in old(records) && Verifiable(old(records)[id], Lower(email), hash(code), purpose, now)
                               && records == old(records)[id := MarkUsed(old(records)[id], now)]
      ensures !ok ==> records == old(records)
    {
      var codeHash := hash(code);
      if id :| id in records && Verifiable(records[id], Lower(email), codeHash, purpose, now) {
        MarkUsedKeepsInvariant(records, id, now);
        records := records[id := MarkUsed(records[id], now)];
        ok := true;
      } else {
        ok := false;
      }
    }

    /** `can_resend_otp`: looks at the newest code of the address and
        purpose created within the last `cooldown` seconds. */
    method CanResendOtp(email: string, purpose: Purpose, now: real, cooldown: int)
      returns (canResend: bool, remaining: Option<int>)
      ensures (canResend, remaining) ==
        ResendVerdict(NewestCreation(records, Lower(email), purpose, now - cooldown as real), now, cooldown)
    {
      var threshold := now - cooldown as real;
      var ids := RecentIds(records, Lower(email), purpose, threshold);
      if ids == {} {
        return true, None;
      }
      LatestExists(records, ids);
      var id :| id in ids && forall j :: j in ids ==> records[j].createdAt <= records[id].createdAt;
      var elapsed := now - records[id].createdAt;
      var left := Trunc(cooldown as real - elapsed);
      if left <= 0 {
        return true, None;
      }
      return false, Some(left);
    }

    /** `cleanup_expired_otps`: deletes the expired and the used records
        and returns how many it deleted. */
    method CleanupExpiredOtps(now: real) returns (deleted: nat)
      requires Valid()
      modifies this
      ensures Valid()
      ensures records == Cleaned(old(records), now)
      ensures deleted == |StaleIds(old(records), now)|
    {
      deleted := |StaleIds(records, now)|;
      records := Cleaned(records, now);
    }
  }
}
