/**
 The hash-chained security audit log (core/security_audit.py). The hash is any function on texts: the
 theorems about tampering end in two different texts with one hash, both of which the logs at hand hash.
 `loads` is any reader of the stored detail texts, and `show` is `str` for values that JSON has not.
 */
module AuditChain {
  import opened Common
  import opened PyValue
  import opened ValueText

  type Hash = string -> string

  type Loads = string -> Option<Value>

  /** The functions the log is built on. */
  datatype Env = Env(hash: Hash, show: Show, loads: Loads)

  /** One row of the table. */
  datatype Row = Row(id: nat, eventType: string, detailJson: string, sourceIp: string, timestamp: string,
                     prevHash: string, entryHash: string)

  datatype Verdict = Intact | PrevMismatch(id: nat) | EntryMismatch(id: nat) | Raises(id: nat)

  const GENESIS := "genesis"

  /** The object that is hashed for an event. */
  function EntryValue(eventType: string, detail: Value, sourceIp: string, timestamp: string): Value {
    Dict([("event_type", Str(eventType)), ("detail", detail),
          ("source_ip", Str(sourceIp)), ("timestamp", Str(timestamp))])
  }

  /** What the hash is applied to. */
  function HashedText(entryJson: string, prevHash: string): string { entryJson + ("|" + prevHash) }

  function EntryJson(env: Env, eventType: string, detail: Value, sourceIp: string, timestamp: string): string {
    Dumps(env.show, EntryValue(eventType, detail, sourceIp, timestamp))
  }

  /** The detail of a stored row, unless reading its text raises. */
  function DetailOf(env: Env, r: Row): Option<Value> { env.loads(r.detailJson) }

  function TextOf(env: Env, r: Row): string
    requires DetailOf(env, r).Some?
  {
    HashedText(EntryJson(env, r.eventType, DetailOf(env, r).value, r.sourceIp, r.timestamp), r.prevHash)
  }

  /** The hash that row `i` must link to. */
  function HashBefore(env: Env, rows: seq<Row>, i: nat): string
    requires i <= |rows|
  {
    if i == 0 then env.hash(GENESIS) else rows[i - 1].entryHash
  }

  function LastHash(env: Env, rows: seq<Row>): string { HashBefore(env, rows, |rows|) }

  // ----- Verifying -----

  function Verdicts(env: Env, rows: seq<Row>, expectedPrev: string): Verdict {
    if rows == [] then Intact
    else if rows[0].prevHash != expectedPrev then PrevMismatch(rows[0].id)
    else if DetailOf(env, rows[0]).None? then Raises(rows[0].id)
    else if env.hash(TextOf(env, rows[0])) != rows[0].entryHash then EntryMismatch(rows[0].id)
    else Verdicts(env, rows[1..], rows[0].entryHash)
  }

  method VerifyChain(env: Env, rows: seq<Row>) returns (v: Verdict)
    ensures v == Verdicts(env, rows, env.hash(GENESIS))
  {
    var expectedPrev := env.hash(GENESIS);
    for i := 0 to |rows|
      invariant Verdicts(env, rows, env.hash(GENESIS)) == Verdicts(env, rows[i..], expectedPrev)
    {
      var row := rows[i];
      assert rows[i..][0] == row && rows[i..][1..] == rows[i + 1..];
      if row.prevHash != expectedPrev {
        return PrevMismatch(row.id);
      }
      var detail := DetailOf(env, row);
      if detail.None? {
        return Raises(row.id);
      }
      var entryJson := EntryJson(env, row.eventType, detail.value, row.sourceIp, row.timestamp);
      var computed := env.hash(HashedText(entryJson, row.prevHash));
      if computed != row.entryHash {
        return EntryMismatch(row.id);
      }
      expectedPrev := row.entryHash;
    }
    v := Intact;
  }

  /** Row `i` links to the one before it and carries the hash of its own contents. */
  predicate Linked(env: Env, rows: seq<Row>, i: nat)
    requires i < |rows|
  {
    && rows[i].prevHash == HashBefore(env, rows, i)
    && DetailOf(env, rows[i]).Some?
    && rows[i].entryHash == env.hash(TextOf(env, rows[i]))
  }

  predicate Chained(env: Env, rows: seq<Row>) { forall i: nat :: i < |rows| ==> Linked(env, rows, i) }

  lemma {:induction false} VerdictFrom(env: Env, rows: seq<Row>, done: nat)
    requires done <= |rows| && forall i: nat :: i < done ==> Linked(env, rows, i)
    ensures Verdicts(env, rows[done..], HashBefore(env, rows, done)) == Intact <==> Chained(env, rows)
    decreases |rows| - done
  {
    if done < |rows| {
      var row := rows[done];
      assert rows[done..][0] == row && rows[done..][1..] == rows[done + 1..];
      if Linked(env, rows, done) {
        VerdictFrom(env, rows, done + 1);
      }
    }
  }

  /** The loop accepts exactly the chained logs. */
  lemma {:induction false} IntactIffChained(env: Env, rows: seq<Row>)
    ensures Verdicts(env, rows, env.hash(GENESIS)) == Intact <==> Chained(env, rows)
  {
    assert rows[0..] == rows;
    VerdictFrom(env, rows, 0);
  }

  // ----- Appending -----

  /** A missing or empty detail is stored as an empty object. */
  function Stored(detail: Value): Value { if Truthy(detail) then detail else Dict([]) }

  /** An event handed to `append_event`, with the id and time it gets. */
  datatype Event = Event(id: nat, eventType: string, detail: Value, sourceIp: string, timestamp: string)

  /** The row that `append_event` inserts. */
  function NewRow(env: Env, rows: seq<Row>, e: Event): Row {
    var prev := LastHash(env, rows);
    var entryJson := EntryJson(env, e.eventType, Stored(e.detail), e.sourceIp, e.timestamp);
    Row(e.id, e.eventType, Dumps(env.show, Stored(e.detail)), e.sourceIp, e.timestamp, prev,
        env.hash(HashedText(entryJson, prev)))
  }

  class AuditLog {
    var rows: seq<Row>
    var nextId: nat
    const env: Env

    constructor (env: Env)
      ensures rows == [] && this.env == env
    {
      rows, nextId := [], 1;
      this.env := env;
    }

    method AppendEvent(eventType: string, detail: Value, sourceIp: string, timestamp: string)
      modifies this
      ensures rows == old(rows) + [NewRow(env, old(rows), Event(old(nextId), eventType, detail, sourceIp, timestamp))]
      ensures nextId == old(nextId) + 1
    {
      var stored := if Truthy(detail) then detail else Dict([]);
      var detailJson := Dumps(env.show, stored);
      var prevHash := LastHash(env, rows);
      var entryJson := EntryJson(env, eventType, stored, sourceIp, timestamp);
      var entryHash := env.hash(HashedText(entryJson, prevHash));
      rows := rows + [Row(nextId, eventType, detailJson, sourceIp, timestamp, prevHash, entryHash)];
      nextId := nextId + 1;
    }
  }

  function Built(env: Env, events: seq<Event>): seq<Row> {
    if events == [] then []
    else
      var rows := Built(env, events[..|events| - 1]);
      rows + [NewRow(env, rows, events[|events| - 1])]
  }

  /** Reading what was dumped gives what the text stands for: tuples as lists, other objects as their `str`. */
  predicate ReadsDumps(env: Env, v: Value) { env.loads(Dumps(env.show, v)) == Some(Seen(Json(env.show), v)) }

  /** A log built by any appends verifies, as long as the reader undoes the dumps of its details. */
  lemma {:induction false} AppendsVerify(env: Env, events: seq<Event>)
    requires forall i :: 0 <= i < |events| ==> ReadsDumps(env, Stored(events[i].detail))
    ensures Chained(env, Built(env, events)) && |Built(env, events)| == |events|
  {
    if events != [] {
      var front, e := events[..|events| - 1], events[|events| - 1];
      AppendsVerify(env, front);
      NewRowIsLinked(env, Built(env, front), e);
      AppendKeepsChain(env, Built(env, front), NewRow(env, Built(env, front), e));
    }
  }

  lemma NewRowIsLinked(env: Env, rows: seq<Row>, e: Event)
    requires ReadsDumps(env, Stored(e.detail))
    ensures var r := NewRow(env, rows, e); DetailOf(env, r).Some? && r.entryHash == env.hash(TextOf(env, r))
  {
    EntryOfSeen(env, e.eventType, Stored(e.detail), e.sourceIp, e.timestamp);
  }

  /** Dumping, loading and dumping again gives the text of the first dump. */
  lemma EntryOfSeen(env: Env, eventType: string, detail: Value, sourceIp: string, timestamp: string)
    ensures EntryJson(env, eventType, Seen(Json(env.show), detail), sourceIp, timestamp)
         == EntryJson(env, eventType, detail, sourceIp, timestamp)
  {
    var style := Json(env.show);
    var v := EntryValue(eventType, detail, sourceIp, timestamp);
    var w := EntryValue(eventType, Seen(style, detail), sourceIp, timestamp);
    SeenTwice(style, detail);
    SeenBrackets(style, v);
    SeenBrackets(style, w);
    assert SeenEntries(style, v) == SeenEntries(style, w);
    PrintsAlikeIff(style, v, w, 0);
  }

  lemma SeenTwice(style: Style, v: Value)
    ensures Seen(style, Seen(style, v)) == Seen(style, v)
  {
    PrintOfSeen(style, v, 0);
    PrintsAlikeIff(style, Seen(style, v), v, 0);
  }

  lemma AppendKeepsChain(env: Env, rows: seq<Row>, row: Row)
    requires Chained(env, rows) && row.prevHash == LastHash(env, rows)
    requires DetailOf(env, row).Some? && row.entryHash == env.hash(TextOf(env, row))
    ensures Chained(env, rows + [row])
  {
    hide TextOf, DetailOf;
    var all := rows + [row];
    forall i: nat | i < |all| ensures Linked(env, all, i) {
      if i < |rows| {
        assert Linked(env, rows, i);
      }
    }
  }

  /** There is such a reader: the parser of `ValueText`. So every log built by appends verifies with it. */
  lemma {:induction false} BuiltLogsVerify(env: Env, events: seq<Event>)
    requires env.loads == Parse
    ensures Verdicts(env, Built(env, events), env.hash(GENESIS)) == Intact
  {
    forall v: Value ensures ReadsDumps(env, v) {
      ParsePrint(Json(env.show), v, 0);
    }
    AppendsVerify(env, events);
    IntactIffChained(env, Built(env, events));
  }

  // ----- Tampering -----

  /** What `json.loads` returns are JSON values. */
  ghost predicate ReturnsJson(loads: Loads) { forall s :: loads(s).Some? ==> IsJson(loads(s).value) }

  /** The rows agree in everything that an event consists of; ids are not part of the chain. */
  predicate SameEntry(env: Env, a: Row, b: Row) {
    && a.eventType == b.eventType && a.sourceIp == b.sourceIp && a.timestamp == b.timestamp
    && DetailOf(env, a) == DetailOf(env, b)
    && a.prevHash == b.prevHash && a.entryHash == b.entryHash
  }

  predicate SameLog(env: Env, a: seq<Row>, b: seq<Row>) {
    |a| == |b| && forall i :: 0 <= i < |a| ==> SameEntry(env, a[i], b[i])
  }

  /** The text is one that verifying the log hashes. */
  predicate TextIn(env: Env, rows: seq<Row>, text: string) {
    || text == GENESIS
    || exists i :: 0 <= i < |rows| && DetailOf(env, rows[i]).Some? && TextOf(env, rows[i]) == text
  }

  /** Two different texts, one hashed for each log, have one hash. */
  ghost predicate Collision(env: Env, a: seq<Row>, b: seq<Row>) {
    exists x, y :: TextIn(env, a, x) && TextIn(env, b, y) && x != y && env.hash(x) == env.hash(y)
  }

  lemma EntryJsonDetermines(env: Env, v: Value, r: string, w: Value, s: string)
    requires v.Dict? && w.Dict? && Dumps(env.show, v) + ("|" + r) == Dumps(env.show, w) + ("|" + s)
    ensures Seen(Json(env.show), v) == Seen(Json(env.show), w) && r == s
  {
    PrintRoundTrip(Json(env.show), v, 0, "|" + r);
    PrintRoundTrip(Json(env.show), w, 0, "|" + s);
    assert ("|" + r)[1..] == r && ("|" + s)[1..] == s;
  }

  /** The hashed text of a row determines its fields: the JSON text is a prefix that ends itself. */
  lemma {:induction false} TextDeterminesEntry(env: Env, a: Row, b: Row)
    requires ReturnsJson(env.loads) && DetailOf(env, a).Some? && DetailOf(env, b).Some?
    requires TextOf(env, a) == TextOf(env, b)
    ensures a.eventType == b.eventType && a.sourceIp == b.sourceIp && a.timestamp == b.timestamp
    ensures DetailOf(env, a) == DetailOf(env, b) && a.prevHash == b.prevHash
  {
    var style := Json(env.show);
    var v := EntryValue(a.eventType, DetailOf(env, a).value, a.sourceIp, a.timestamp);
    var w := EntryValue(b.eventType, DetailOf(env, b).value, b.sourceIp, b.timestamp);
    EntryJsonDetermines(env, v, a.prevHash, w, b.prevHash);
    SeenBrackets(style, v);
    SeenBrackets(style, w);
    var x, y := SeenEntries(style, v), SeenEntries(style, w);
    assert x[0].1 == y[0].1 && x[1].1 == y[1].1 && x[2].1 == y[2].1 && x[3].1 == y[3].1;
    DetailIsSeen(env, a);
    DetailIsSeen(env, b);
  }

  lemma DetailIsSeen(env: Env, r: Row)
    requires ReturnsJson(env.loads) && DetailOf(env, r).Some?
    ensures Seen(Json(env.show), DetailOf(env, r).value) == DetailOf(env, r).value
  {
    var v := DetailOf(env, r).value;
    JsonIsPrintable(env.show, v);
    SeenIff(Json(env.show), v);
  }

  lemma TextIsNotGenesis(env: Env, r: Row)
    requires DetailOf(env, r).Some?
    ensures TextOf(env, r) != GENESIS
  {
    assert TextOf(env, r)[0] == '{';
  }

  /** In chained logs equal link hashes belong to equal beginnings. */
  lemma {:induction false} SameHashSameStart(env: Env, a: seq<Row>, i: nat, b: seq<Row>, j: nat)
    requires ReturnsJson(env.loads) && Chained(env, a) && Chained(env, b) && i <= |a| && j <= |b|
    requires HashBefore(env, a, i) == HashBefore(env, b, j)
    ensures (i == j && forall k :: 0 <= k < i ==> SameEntry(env, a[k], b[k])) || Collision(env, a, b)
    decreases i
  {
    if i == 0 && j == 0 {
    } else if i == 0 {
      assert Linked(env, b, j - 1);
      TextIsNotGenesis(env, b[j - 1]);
      assert TextIn(env, a, GENESIS) && TextIn(env, b, TextOf(env, b[j - 1]));
    } else if j == 0 {
      assert Linked(env, a, i - 1);
      TextIsNotGenesis(env, a[i - 1]);
      assert TextIn(env, b, GENESIS) && TextIn(env, a, TextOf(env, a[i - 1]));
    } else {
      var x, y := a[i - 1], b[j - 1];
      assert Linked(env, a, i - 1) && Linked(env, b, j - 1);
      if TextOf(env, x) == TextOf(env, y) {
        TextDeterminesEntry(env, x, y);
        SameHashSameStart(env, a, i - 1, b, j - 1);
      } else {
        assert TextIn(env, a, TextOf(env, x)) && TextIn(env, b, TextOf(env, y));
      }
    }
  }

  /** The main theorem: two logs that both verify and end in the same hash are the same log, entry by
      entry, or else verifying them hashes two different texts to one value. */
  lemma {:induction false} SameEndSameLog(env: Env, a: seq<Row>, b: seq<Row>)
    requires ReturnsJson(env.loads) && Chained(env, a) && Chained(env, b)
    requires LastHash(env, a) == LastHash(env, b)
    ensures SameLog(env, a, b) || Collision(env, a, b)
  {
    SameHashSameStart(env, a, |a|, b, |b|);
  }

  /** So an edit, a deletion or a reordering that keeps the last hash of an intact log is reported by
      `VerifyChain`, unless it comes with such a collision. */
  lemma {:induction false} TamperingIsDetected(env: Env, log: seq<Row>, tampered: seq<Row>)
    requires ReturnsJson(env.loads) && Verdicts(env, log, env.hash(GENESIS)) == Intact
    requires LastHash(env, tampered) == LastHash(env, log) && !SameLog(env, log, tampered)
    ensures Verdicts(env, tampered, env.hash(GENESIS)) != Intact || Collision(env, log, tampered)
  {
    IntactIffChained(env, log);
    IntactIffChained(env, tampered);
    if Chained(env, tampered) {
      SameEndSameLog(env, log, tampered);
    }
  }

  /** Cutting entries off the end goes unnoticed: a prefix of an intact log is intact. */
  lemma {:induction false} PrefixIsChained(env: Env, rows: seq<Row>, prefix: seq<Row>)
    requires Chained(env, rows) && prefix <= rows
    ensures Chained(env, prefix)
  {
    forall i: nat | i < |prefix| ensures Linked(env, prefix, i) {
      assert Linked(env, rows, i);
    }
  }

  /** And nothing else does: of the rows of an intact log, deleted, reordered or repeated in any way,
      exactly the prefixes verify, unless the log itself hashes two different texts to one value. */
  lemma {:induction false} RearrangedVerifiesIff(env: Env, log: seq<Row>, rows: seq<Row>)
    requires ReturnsJson(env.loads) && Chained(env, log) && forall k :: 0 <= k < |rows| ==> rows[k] in log
    ensures (Chained(env, rows) <==> rows <= log) || Collision(env, log, log)
  {
    if rows <= log {
      PrefixIsChained(env, log, rows);
    }
    if Chained(env, rows) && !Collision(env, log, log) {
      StartsAgree(env, log, rows, |rows|);
      assert rows[..|rows|] == rows;
    }
  }

  lemma {:induction false} StartsAgree(env: Env, log: seq<Row>, rows: seq<Row>, n: nat)
    requires ReturnsJson(env.loads) && Chained(env, log) && forall k :: 0 <= k < |rows| ==> rows[k] in log
    requires Chained(env, rows) && !Collision(env, log, log) && n <= |rows|
    ensures n <= |log| && rows[..n] == log[..n]
  {
    if n > 0 {
      StartsAgree(env, log, rows, n - 1);
      var k: nat :| k < |log| && log[k] == rows[n - 1];
      assert Linked(env, log, k) && Linked(env, rows, n - 1);
      assert n >= 2 ==> rows[n - 2] == rows[..n - 1][n - 2] == log[n - 2];
      SameHashSameStart(env, log, n - 1, log, k);
      assert rows[..n] == rows[..n - 1] + [rows[n - 1]];
    }
  }
}
