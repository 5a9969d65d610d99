/** `storage/audit.py` and `storage/emergency_log.py`: the two logs as classes, and the merge of one into the other. */
module EmergencyLogs {
  import opened Basics
  import opened HashChain

  /** One line of the log file; a line that is not JSON is kept as such. */
  datatype Line = Json(entry: Entry) | Corrupt

  const EMERGENCY := "emergency_stop"

  /** The JSON text an emergency entry becomes in the audit log. */
  type Wrap = Entry -> string

  function Entries(lines: seq<Line>): seq<Entry> {
    if lines == [] then []
    else Entries(lines[..|lines| - 1]) + (if lines[|lines| - 1].Json? then [lines[|lines| - 1].entry] else [])
  }

  /** What `EmergencyLog.verify` reports: a corrupt line is listed and otherwise passed over. */
  function BrokenLines(g: Digest, lines: seq<Line>): seq<Broken> {
    if lines == [] then []
    else
      var before, last := lines[..|lines| - 1], lines[|lines| - 1];
      BrokenLines(g, before)
      + (if last.Json? then BrokenAt(g, PrevHash(Entries(before)), PrevSeq(Entries(before)), last.entry) else [NotJson])
  }

  ghost predicate Intact(g: Digest, lines: seq<Line>) {
    AllJson(lines) && Chained(g, Entries(lines))
  }

  predicate AllJson(lines: seq<Line>) {
    forall i | 0 <= i < |lines| :: lines[i].Json?
  }

  lemma AllJsonSplit(lines: seq<Line>)
    requires lines != []
    ensures AllJson(lines) <==> AllJson(lines[..|lines| - 1]) && lines[|lines| - 1].Json?
  {
    var before := lines[..|lines| - 1];
    assert forall i | 0 <= i < |before| :: before[i] == lines[i];
  }

  lemma EntriesBreak(g: Digest, lines: seq<Line>)
    requires lines != [] && lines[|lines| - 1].Json?
    ensures var es := Entries(lines[..|lines| - 1]);
            BrokenRows(g, Entries(lines))
            == BrokenRows(g, es) + BrokenAt(g, PrevHash(es), PrevSeq(es), lines[|lines| - 1].entry)
  {
    var es, e := Entries(lines[..|lines| - 1]), lines[|lines| - 1].entry;
    assert Entries(lines) == es + [e];
    assert (es + [e])[..|es|] == es;
  }

  lemma {:induction false} BrokenLinesSplit(g: Digest, lines: seq<Line>)
    ensures BrokenLines(g, lines) == [] <==> AllJson(lines) && BrokenRows(g, Entries(lines)) == []
  {
    if lines != [] {
      AllJsonSplit(lines);
      BrokenLinesSplit(g, lines[..|lines| - 1]);
      if lines[|lines| - 1].Json? {
        EntriesBreak(g, lines);
      }
    }
  }

  /** The emergency log verifies exactly when every line is JSON and the entries form a chain. */
  lemma LogVerifiesExactly(g: Digest, lines: seq<Line>)
    ensures BrokenLines(g, lines) == [] <==> Intact(g, lines)
  {
    BrokenLinesSplit(g, lines);
    VerifiesExactly(g, Entries(lines));
  }

  // ---------- merging ----------

  function Hashes(es: seq<Entry>): set<string> {
    set i | 0 <= i < |es| :: es[i].hash
  }

  /** The entries no earlier merge has marked, in log order. */
  function Unmerged(es: seq<Entry>, marks: set<string>): seq<Entry> {
    if es == [] then []
    else Unmerged(es[..|es| - 1], marks) + (if es[|es| - 1].hash in marks then [] else [es[|es| - 1]])
  }

  /** The audit log with one row for each of these entries. */
  function Merged(g: Digest, wrap: Wrap, audit: seq<Entry>, es: seq<Entry>, clock: nat -> int): seq<Entry> {
    if es == [] then audit
    else
      var before := Merged(g, wrap, audit, es[..|es| - 1], clock);
      before + [NextEntry(g, before, EMERGENCY, EMERGENCY, wrap(es[|es| - 1]), clock(|before|))]
  }

  /** The mark is a primary key: two new entries with one hash fail the whole transaction. */
  ghost predicate SameHashTwice(es: seq<Entry>) {
    exists i, j :: 0 <= i < j < |es| && es[i].hash == es[j].hash
  }

  /** The three checks both logs make of a row. */
  method CheckRow(g: Digest, prevHash: string, prevSeq: int, row: Entry) returns (found: seq<Broken>)
    ensures found == BrokenAt(g, prevHash, prevSeq, row)
  {
    found := [];
    if row.seqNo != prevSeq + 1 {
      found := found + [Gap(row.seqNo)];
    }
    if row.prevHash != prevHash {
      found := found + [PrevMismatch(row.seqNo)];
    }
    if row.hash != g(prevHash, row) {
      found := found + [HashMismatch(row.seqNo)];
    }
  }

  lemma BrokenRowsGrow(g: Digest, rows: seq<Entry>, i: nat)
    requires i < |rows|
    ensures BrokenRows(g, rows[..i + 1])
         == BrokenRows(g, rows[..i]) + BrokenAt(g, PrevHash(rows[..i]), PrevSeq(rows[..i]), rows[i])
  {
    assert rows[..i + 1][..i] == rows[..i];
  }

  lemma MergedGrows(g: Digest, wrap: Wrap, audit: seq<Entry>, es: seq<Entry>, e: Entry, clock: nat -> int)
    ensures var before := Merged(g, wrap, audit, es, clock);
            Merged(g, wrap, audit, es + [e], clock)
            == before + [NextEntry(g, before, EMERGENCY, EMERGENCY, wrap(e), clock(|before|))]
  {
    assert (es + [e])[..|es|] == es;
  }

  function WithoutMark(marks: set<string>): Entry -> bool {
    (e: Entry) => e.hash !in marks
  }

  lemma UnmergedSplit(es: seq<Entry>, less: seq<Entry>, e: Entry, marks: set<string>)
    requires es == less + [e]
    ensures Unmerged(es, marks) == if WithoutMark(marks)(e) then Unmerged(less, marks) + [e] else Unmerged(less, marks)
  {
    assert es[..|less|] == less;
  }

  lemma UnmergedOneMore(es: seq<Entry>, less: seq<Entry>, e: Entry, marks: set<string>, at: seq<nat>)
      returns (at': seq<nat>)
    requires es == less + [e] && PickedBy(less, Unmerged(less, marks), at, WithoutMark(marks))
    ensures PickedBy(es, Unmerged(es, marks), at', WithoutMark(marks))
  {
    UnmergedSplit(es, less, e, marks);
    at' := PickNext(less, e, Unmerged(less, marks), at, WithoutMark(marks));
  }

  lemma {:induction false} UnmergedPlaces(es: seq<Entry>, marks: set<string>) returns (at: seq<nat>)
    ensures PickedBy(es, Unmerged(es, marks), at, WithoutMark(marks))
  {
    at := [];
    if es != [] {
      at := UnmergedPlaces(es[..|es| - 1], marks);
      at := UnmergedOneMore(es, es[..|es| - 1], es[|es| - 1], marks, at);
    }
  }

  /** What is merged, in full: exactly the entries without a mark, in log order. */
  lemma {:induction false} UnmergedExactly(es: seq<Entry>, marks: set<string>)
    ensures exists at :: PickedAt(es, Unmerged(es, marks), at)
                         && forall n: nat | n < |es| :: n in at <==> es[n].hash !in marks
  {
    var at := UnmergedPlaces(es, marks);
    assert forall n: nat | n < |es| :: WithoutMark(marks)(es[n]) <==> es[n].hash !in marks;
  }

  /** The merged table in full: the audit rows as they were, then one next row for each entry, in order, made by and for
      the emergency stop, with the entry as its details. */
  ghost predicate MergeInFull(g: Digest, wrap: Wrap, audit: seq<Entry>, es: seq<Entry>, clock: nat -> int,
                              table: seq<Entry>) {
    && |table| == |audit| + |es| && table[..|audit|] == audit
    && forall i | 0 <= i < |es| ::
         NextInFull(g, table[..|audit| + i], "emergency_stop", "emergency_stop", wrap(es[i]), clock(|audit| + i),
                    table[|audit| + i])
  }

  lemma {:induction false} MergedExactly(g: Digest, wrap: Wrap, audit: seq<Entry>, es: seq<Entry>, clock: nat -> int)
    ensures MergeInFull(g, wrap, audit, es, clock, Merged(g, wrap, audit, es, clock))
  {
    if es != [] {
      var n := |es| - 1;
      var before := Merged(g, wrap, audit, es[..n], clock);
      var e := NextEntry(g, before, EMERGENCY, EMERGENCY, wrap(es[n]), clock(|before|));
      MergedExactly(g, wrap, audit, es[..n], clock);
      NextExactly(g, before, EMERGENCY, EMERGENCY, wrap(es[n]), clock(|before|));
      MergeOneMore(g, wrap, audit, es, clock, before, e);
    }
  }

  lemma MergeOneMore(g: Digest, wrap: Wrap, audit: seq<Entry>, es: seq<Entry>, clock: nat -> int, before: seq<Entry>,
                     e: Entry)
    requires es != [] && MergeInFull(g, wrap, audit, es[..|es| - 1], clock, before)
    requires NextInFull(g, before, "emergency_stop", "emergency_stop", wrap(es[|es| - 1]), clock(|before|), e)
    ensures MergeInFull(g, wrap, audit, es, clock, before + [e])
  {
    var table, n := before + [e], |es| - 1;
    assert table[..|audit|] == before[..|audit|];
    forall i | 0 <= i < |es|
      ensures NextInFull(g, table[..|audit| + i], "emergency_stop", "emergency_stop", wrap(es[i]), clock(|audit| + i),
                         table[|audit| + i])
    {
      if i < n {
        assert es[..n][i] == es[i];
        assert table[..|audit| + i] == before[..|audit| + i];
      } else {
        assert table[..|before|] == before;
      }
    }
  }

  /** The transaction's tables once `news` is merged. */
  ghost predicate Merging(g: Digest, wrap: Wrap, audit: seq<Entry>, marks: set<string>, news: seq<Entry>,
                          clock: nat -> int, table: seq<Entry>, marked: set<string>) {
    && table == Merged(g, wrap, audit, news, clock)
    && marked == marks + Hashes(news)
    && !SameHashTwice(news)
  }

  lemma MergingGrows(g: Digest, wrap: Wrap, audit: seq<Entry>, marks: set<string>, news: seq<Entry>, e: Entry,
                     clock: nat -> int, table: seq<Entry>, marked: set<string>)
    requires Merging(g, wrap, audit, marks, news, clock, table, marked) && e.hash !in marked
    ensures Merging(g, wrap, audit, marks, news + [e], clock,
                    table + [NextEntry(g, table, EMERGENCY, EMERGENCY, wrap(e), clock(|table|))], marked + {e.hash})
  {
    MergedGrows(g, wrap, audit, news, e, clock);
    NewHash(news, e);
  }

  class AuditLog {
    var rows: seq<Entry>
    var marks: set<string>
    const digest: Digest
    const wrap: Wrap

    constructor (hash: Hash, wrap: Wrap)
      ensures rows == [] && marks == {} && digest == HashEntry(hash) && this.wrap == wrap
    {
      rows, marks := [], {};
      digest, this.wrap := HashEntry(hash), wrap;
    }

    method Append(actor: string, action: string, details: string, now: int) returns (seqNo: int)
      modifies `rows
      ensures rows == old(rows) + [NextEntry(digest, old(rows), actor, action, details, now)]
      ensures seqNo == PrevSeq(rows)
      ensures NextInFull(digest, old(rows), actor, action, details, now, rows[|rows| - 1])
      ensures seqNo == rows[|rows| - 1].seqNo
      ensures IgnoresHashes(digest) && Chained(digest, old(rows)) ==> Chained(digest, rows)
    {
      NextExactly(digest, rows, actor, action, details, now);
      if IgnoresHashes(digest) && Chained(digest, rows) {
        AppendKeepsChain(digest, rows, actor, action, details, now);
      }
      var prevSeq := if |rows| > 0 then rows[|rows| - 1].seqNo else 0;
      var prevHash := if |rows| > 0 then rows[|rows| - 1].hash else GENESIS;
      seqNo := prevSeq + 1;
      var e := Entry(seqNo, actor, action, details, prevHash, "", now);
      rows := rows + [e.(hash := digest(prevHash, e))];
    }

    /** Reports every deviation, and nothing exactly when the log is an intact chain. */
    method Verify() returns (broken: seq<Broken>)
      ensures broken == BrokenRows(digest, rows)
      ensures broken == [] <==> Chained(digest, rows)
    {
      VerifiesExactly(digest, rows);
      broken := [];
      var prevHash, prevSeq := GENESIS, 0;
      for i := 0 to |rows|
        invariant broken == BrokenRows(digest, rows[..i])
        invariant prevHash == HashBefore(rows, i) && prevSeq == SeqBefore(rows, i)
      {
        BrokenRowsGrow(digest, rows, i);
        var found := CheckRow(digest, prevHash, prevSeq, rows[i]);
        broken := broken + found;
        prevHash, prevSeq := rows[i].hash, rows[i].seqNo;
      }
      assert rows[..|rows|] == rows;
    }

    /** `reconcile_emergency_log`: one transaction, so a failure leaves both tables alone. */
    method ReconcileEmergencyLog(lines: seq<Line>, clock: nat -> int) returns (written: Result<nat>)
      modifies this
      ensures var news := Unmerged(Entries(lines), old(marks));
              if SameHashTwice(news) then written.Err? && rows == old(rows) && marks == old(marks)
              else
                && written == Ok(|news|)
                && rows == Merged(digest, wrap, old(rows), news, clock)
                && marks == old(marks) + Hashes(news)
                && MergeInFull(digest, wrap, old(rows), news, clock, rows)
    {
      var table, marked, count := rows, marks, 0;
      ghost var news := [];
      for i := 0 to |lines|
        invariant news == Unmerged(Entries(lines[..i]), marks) && |news| == count
        invariant Merging(digest, wrap, rows, marks, news, clock, table, marked)
        invariant rows == old(rows) && marks == old(marks)
      {
        OneMoreLine(lines, i, marks);
        if lines[i].Json? && lines[i].entry.hash !in marks {
          var e := lines[i].entry;
          if e.hash in marked {
            RepeatedHashFails(news, e, i, lines, marks);
            return Err(InternalError);
          }
          MergingGrows(digest, wrap, rows, marks, news, e, clock, table, marked);
          table := Appended(table, wrap(e), clock(|table|));
          marked, count, news := marked + {e.hash}, count + 1, news + [e];
        }
      }
      assert lines[..|lines|] == lines;
      MergedExactly(digest, wrap, rows, news, clock);
      rows, marks := table, marked;
      return Ok(count);
    }

    /** `append_in_connection` inside the merge's transaction. */
    function Appended(table: seq<Entry>, details: string, now: int): seq<Entry> {
      table + [NextEntry(digest, table, EMERGENCY, EMERGENCY, details, now)]
    }
  }

  /** How one more line changes what is left to merge. */
  lemma OneMoreLine(lines: seq<Line>, i: nat, marks: set<string>)
    requires i < |lines|
    ensures Entries(lines[..i + 1]) == Entries(lines[..i]) + (if lines[i].Json? then [lines[i].entry] else [])
    ensures Unmerged(Entries(lines[..i + 1]), marks)
         == Unmerged(Entries(lines[..i]), marks)
            + (if lines[i].Json? && lines[i].entry.hash !in marks then [lines[i].entry] else [])
  {
    assert lines[..i + 1][..i] == lines[..i];
    var es := Entries(lines[..i]);
    if lines[i].Json? {
      assert (es + [lines[i].entry])[..|es|] == es;
    } else {
      assert es + [] == es;
    }
  }

  lemma NewHash(news: seq<Entry>, e: Entry)
    requires !SameHashTwice(news) && e.hash !in Hashes(news)
    ensures !SameHashTwice(news + [e]) && Hashes(news + [e]) == Hashes(news) + {e.hash}
  {
    var all := news + [e];
    forall i, j | 0 <= i < j < |all| ensures all[i].hash != all[j].hash {
      assert all[i] == news[i];
    }
    assert forall i | 0 <= i < |news| :: all[i] == news[i];
    assert all[|news|] == e;
  }

  /** What is unmerged among the first lines stays at the front. */
  lemma {:induction false} UnmergedPrefix(lines: seq<Line>, n: nat, marks: set<string>)
    requires n <= |lines|
    ensures Unmerged(Entries(lines[..n]), marks) <= Unmerged(Entries(lines), marks)
    decreases |lines| - n
  {
    if n == |lines| {
      assert lines[..n] == lines;
    } else {
      UnmergedPrefix(lines, n + 1, marks);
      OneMoreLine(lines, n, marks);
    }
  }

  lemma RepeatedHashFails(news: seq<Entry>, e: Entry, n: nat, lines: seq<Line>, marks: set<string>)
    requires n < |lines| && lines[n] == Json(e)
    requires news == Unmerged(Entries(lines[..n]), marks) && e.hash !in marks && e.hash in Hashes(news)
    ensures SameHashTwice(Unmerged(Entries(lines), marks))
  {
    UnmergedPrefix(lines, n + 1, marks);
    OneMoreLine(lines, n, marks);
    var all := Unmerged(Entries(lines), marks);
    assert news + [e] <= all;
    var i :| 0 <= i < |news| && news[i].hash == e.hash;
    assert all[i] == news[i] && all[|news|] == e;
  }

  lemma BrokenLinesGrow(g: Digest, lines: seq<Line>, i: nat)
    requires i < |lines|
    ensures var es := Entries(lines[..i]);
            BrokenLines(g, lines[..i + 1]) == BrokenLines(g, lines[..i])
              + (if lines[i].Json? then BrokenAt(g, PrevHash(es), PrevSeq(es), lines[i].entry) else [NotJson])
    ensures Entries(lines[..i + 1]) == Entries(lines[..i]) + (if lines[i].Json? then [lines[i].entry] else [])
  {
    assert lines[..i + 1][..i] == lines[..i];
  }

  lemma AppendKeepsIntact(g: Digest, lines: seq<Line>, actor: string, action: string, details: string, now: int)
    requires Intact(g, lines) && IgnoresHashes(g)
    ensures var e := NextEntry(g, Entries(lines), actor, action, details, now);
            Intact(g, lines + [Json(e)]) && Entries(lines + [Json(e)]) == Entries(lines) + [e]
  {
    var e := NextEntry(g, Entries(lines), actor, action, details, now);
    assert (lines + [Json(e)])[..|lines|] == lines;
    AppendKeepsChain(g, Entries(lines), actor, action, details, now);
  }

  lemma LastEntry(lines: seq<Line>)
    requires lines != [] && lines[|lines| - 1].Json?
    ensures Entries(lines) != [] && Entries(lines)[|Entries(lines)| - 1] == lines[|lines| - 1].entry
  {
  }

  class EmergencyLog {
    var lines: seq<Line>
    const digest: Digest

    constructor (hash: Hash)
      ensures lines == [] && digest == HashEntry(hash)
    {
      lines := [];
      digest := HashEntry(hash);
    }

    /** A corrupt last line makes the append fail before anything is written. */
    method Append(actor: string, action: string, details: string, now: int) returns (res: Result<string>)
      modifies this
      ensures if old(lines) != [] && old(lines)[|old(lines)| - 1].Corrupt? then res.Err? && lines == old(lines)
              else
                var e := NextEntry(digest, Entries(old(lines)), actor, action, details, now);
                lines == old(lines) + [Json(e)] && res == Ok(e.hash)
                && NextInFull(digest, Entries(old(lines)), actor, action, details, now, e)
      ensures IgnoresHashes(digest) && Intact(digest, old(lines)) ==> res.Ok? && Intact(digest, lines)
    {
      NextExactly(digest, Entries(lines), actor, action, details, now);
      if IgnoresHashes(digest) && Intact(digest, lines) {
        AppendKeepsIntact(digest, lines, actor, action, details, now);
      }
      var prevSeq, prevHash := 0, GENESIS;
      if |lines| > 0 {
        if lines[|lines| - 1].Corrupt? {
          return Err(InternalError);
        }
        LastEntry(lines);
        prevSeq, prevHash := lines[|lines| - 1].entry.seqNo, lines[|lines| - 1].entry.hash;
      }
      var e := Entry(prevSeq + 1, actor, action, details, prevHash, "", now);
      e := e.(hash := digest(prevHash, e));
      lines := lines + [Json(e)];
      res := Ok(e.hash);
    }

    method Verify() returns (broken: seq<Broken>)
      ensures broken == BrokenLines(digest, lines)
      ensures broken == [] <==> Intact(digest, lines)
    {
      LogVerifiesExactly(digest, lines);
      broken := [];
      var prevHash, prevSeq := GENESIS, 0;
      for i := 0 to |lines|
        invariant broken == BrokenLines(digest, lines[..i])
        invariant prevHash == PrevHash(Entries(lines[..i])) && prevSeq == PrevSeq(Entries(lines[..i]))
      {
        BrokenLinesGrow(digest, lines, i);
        if lines[i].Corrupt? {
          broken := broken + [NotJson];
        } else {
          var row := lines[i].entry;
          var found := CheckRow(digest, prevHash, prevSeq, row);
          broken := broken + found;
          prevHash, prevSeq := row.hash, row.seqNo;
        }
      }
      assert lines[..|lines|] == lines;
    }
  }
}
