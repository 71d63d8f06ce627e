/** `PostgresClinicStatusRepository.getCurrentStatus`: the most recently
    updated row of `clinic_status` (`order by updated_at desc limit 1`), or a
    fixed "unknown, closed" record stamped with the current time when the
    table is empty. */
module ClinicStatus {
  datatype Status = Open | Closed

  /** `ClinicStatusDto`; `updatedAt` is a timestamp in epoch milliseconds. */
  datatype ClinicStatusRecord = ClinicStatusRecord(clinicId: string, name: string, status: Status, updatedAt: int)

  /** The record reported when no status has ever been stored. */
  function Fallback(now: int): ClinicStatusRecord {
    ClinicStatusRecord("unknown", "Unknown Clinic", Closed, now)
  }

  /** The newest row is one of the rows and no row is newer. */
  predicate IsLatest(rows: seq<ClinicStatusRecord>, r: ClinicStatusRecord) {
    r in rows && forall i :: 0 <= i < |rows| ==> rows[i].updatedAt <= r.updatedAt
  }

  /** The current status: the latest row, or the fallback at `now`. Among
      rows sharing the latest timestamp the database may return any one;
      this scan keeps the first it meets. */
  method GetCurrentStatus(rows: seq<ClinicStatusRecord>, now: int) returns (r: ClinicStatusRecord)
    ensures |rows| == 0 ==> r == Fallback(now)
    ensures |rows| > 0 ==> IsLatest(rows, r)
  {
    if |rows| == 0 {
      return Fallback(now);
    }
    r := rows[0];
    var i := 1;
    while i < |rows|
      invariant 1 <= i <= |rows|
      invariant r in rows[..i]
      invariant forall j :: 0 <= j < i ==> rows[j].updatedAt <= r.updatedAt
    {
      if rows[i].updatedAt > r.updatedAt {
        r := rows[i];
      }
      i := i + 1;
    }
    assert rows[..i] == rows;
  }

  /** The latest timestamp is unique to the answer: any two latest rows
      carry the same `updatedAt`, so every correct answer reports the same
      time, and a status stored later than all others is the one reported. */
  lemma LatestIsDetermined(rows: seq<ClinicStatusRecord>, a: ClinicStatusRecord, b: ClinicStatusRecord)
    requires IsLatest(rows, a) && IsLatest(rows, b)
    ensures a.updatedAt == b.updatedAt
  {
    var i :| 0 <= i < |rows| && rows[i] == a;
    var j :| 0 <= j < |rows| && rows[j] == b;
    assert rows[i].updatedAt <= b.updatedAt && rows[j].updatedAt <= a.updatedAt;
  }

  /** Storing a status newer than every stored one makes it the current one. */
  lemma NewestWriteWins(rows: seq<ClinicStatusRecord>, latest: ClinicStatusRecord, r: ClinicStatusRecord)
    requires forall i :: 0 <= i < |rows| ==> rows[i].updatedAt < latest.updatedAt
    requires IsLatest(rows + [latest], r)
    ensures r == latest
  {
    assert (rows + [latest])[|rows|] == latest;
  }
}
