/** `storage/audit.py`: the hash-chained log, its verification, and why its payload text is unambiguous. */
module HashChain {
  type Hash = string -> string

  const GENESIS := "GENESIS"
  const BAR := '|'

  /** SHA-256 in hexadecimal, taken as collision free; a hexadecimal digest holds no bar. */
  ghost predicate IdealHash(h: Hash) {
    && (forall x, y :: h(x) == h(y) ==> x == y)
    && (forall x :: BAR !in h(x))
  }

  function Escaped(c: char): string {
    if c == BAR then "b/" else if c == '/' then "//" else [c]
  }

  function Escape(s: string): string {
    if s == [] then [] else Escape(s[..|s| - 1]) + Escaped(s[|s| - 1])
  }

  lemma {:induction false} EscapeHasNoBar(s: string)
    ensures BAR !in Escape(s)
  {
    if s != [] {
      EscapeHasNoBar(s[..|s| - 1]);
    }
  }

  lemma {:induction false} EscapeIsInjective(s: string, t: string)
    requires Escape(s) == Escape(t)
    ensures s == t
  {
    if s != [] && t != [] {
      var x, y := s[..|s| - 1], t[..|t| - 1];
      EscapedAgree(Escape(x), s[|s| - 1], Escape(y), t[|t| - 1]);
      EscapeIsInjective(x, y);
      SameEnds(s, t);
    }
  }

  lemma SameEnds(s: string, t: string)
    requires s != [] && t != [] && s[..|s| - 1] == t[..|t| - 1] && s[|s| - 1] == t[|t| - 1]
    ensures s == t
  {
    assert s == s[..|s| - 1] + [s[|s| - 1]] && t == t[..|t| - 1] + [t[|t| - 1]];
  }

  lemma EscapedAgree(x: string, c: char, y: string, d: char)
    requires x + Escaped(c) == y + Escaped(d)
    ensures x == y && c == d
  {
    var u, v := x + Escaped(c), y + Escaped(d);
    assert u[|u| - 1] == Escaped(c)[|Escaped(c)| - 1] && v[|v| - 1] == Escaped(d)[|Escaped(d)| - 1];
    if |Escaped(c)| == 2 {
      assert u[|u| - 2] == Escaped(c)[0] && v[|v| - 2] == Escaped(d)[0];
    }
    assert u[..|x|] == x && v[..|y|] == y;
  }

  /** Such functions exist, so what is proved about them is not empty. */
  lemma IdealHashExists() returns (h: Hash)
    ensures IdealHash(h)
  {
    h := Escape;
    forall x, y | h(x) == h(y) ensures x == y {
      EscapeIsInjective(x, y);
    }
    forall x ensures BAR !in h(x) {
      EscapeHasNoBar(x);
    }
  }

  // ---------- decimal numbers ----------

  const DIGITS := "0123456789"

  function Digits(n: nat): (s: string)
    ensures s != [] && forall i | 0 <= i < |s| :: s[i] in DIGITS
  {
    if n < 10 then [DIGITS[n]] else Digits(n / 10) + [DIGITS[n % 10]]
  }

  function Decimal(n: int): string {
    if n < 0 then "-" + Digits(-n) else Digits(n)
  }

  function Reading(s: string): int {
    if s == [] then 0 else 10 * Reading(s[..|s| - 1]) + (s[|s| - 1] as int - '0' as int)
  }

  lemma DigitReads(d: nat)
    requires d < 10
    ensures DIGITS[d] as int - '0' as int == d
  {
  }

  lemma {:induction false} DigitsRead(n: nat)
    ensures Reading(Digits(n)) == n
  {
    DigitReads(n % 10);
    if n >= 10 {
      DigitsRead(n / 10);
      assert (Digits(n / 10) + [DIGITS[n % 10]])[..|Digits(n / 10)|] == Digits(n / 10);
    } else {
      assert Digits(n)[..0] == [];
    }
  }

  /** Different numbers have different decimals, and a decimal holds no bar. */
  lemma DecimalIsInjective(m: int, n: int)
    ensures Decimal(m) == Decimal(n) ==> m == n
    ensures BAR !in Decimal(n)
  {
    assert BAR !in DIGITS && '-' !in DIGITS;
    if Decimal(m) == Decimal(n) {
      assert Decimal(m)[0] == Decimal(n)[0];
      var x, y := if m < 0 then -m else m, if n < 0 then -n else n;
      assert Digits(x)[0] in DIGITS && Digits(y)[0] in DIGITS;
      assert m < 0 <==> n < 0;
      if m < 0 {
        assert Decimal(m)[1..] == Digits(x) && Decimal(n)[1..] == Digits(y);
      }
      DigitsRead(x);
      DigitsRead(y);
    }
  }

  /** A decimal reads as its number, has no leading zero, and starts with a minus sign exactly when it is negative. */
  lemma {:induction false} DecimalExactly(n: int)
    ensures n >= 0 ==> Reading(Decimal(n)) == n && (Decimal(n)[0] == '0' ==> Decimal(n) == "0")
    ensures n < 0 ==> Decimal(n)[0] == '-' && Reading(Decimal(n)[1..]) == -n && Decimal(n)[1] != '0'
  {
    var x := if n < 0 then -n else n;
    DigitsRead(x);
    NoLeadingZero(x);
    if n < 0 {
      assert Decimal(n)[1..] == Digits(x);
    }
  }

  lemma {:induction false} NoLeadingZero(n: nat)
    ensures Digits(n)[0] == '0' ==> n == 0 && Digits(n) == "0"
  {
    if n >= 10 {
      NoLeadingZero(n / 10);
    }
  }

  // ---------- the payload ----------

  datatype Entry = Entry(
    seqNo: int,
    actor: string,
    action: string,
    details: string,
    prevHash: string,
    hash: string,
    createdAt: int)

  /** The last four fields of the text. */
  function Tail(actor: string, action: string, details: string, at: int): string {
    actor + [BAR] + (action + [BAR] + (details + [BAR] + Decimal(at)))
  }

  /** The text that is hashed: six fields joined by bars. */
  function Payload(prevHash: string, seqNo: int, actor: string, action: string, details: string, at: int): string {
    prevHash + [BAR] + (Decimal(seqNo) + [BAR] + Tail(actor, action, details, at))
  }

  lemma Join(x: string, y: string, z: string)
    ensures x + "|" + (y + "|" + z) == x + "|" + y + "|" + z
  {
  }

  /** The hashed text, spelled out. */
  lemma PayloadExactly(prevHash: string, seqNo: int, actor: string, action: string, details: string, at: int)
    ensures Payload(prevHash, seqNo, actor, action, details, at)
         == prevHash + "|" + Decimal(seqNo) + "|" + actor + "|" + action + "|" + details + "|" + Decimal(at)
  {
    assert [BAR] == "|";
    var last := details + "|" + Decimal(at);
    var head := prevHash + "|" + Decimal(seqNo);
    Join(prevHash, Decimal(seqNo), Tail(actor, action, details, at));
    Join(head, actor, action + "|" + last);
    Join(head + "|" + actor, action, last);
    Join(head + "|" + actor + "|" + action, details, Decimal(at));
  }

  /** The first bar ends a field that holds none. */
  lemma SplitAtFirstBar(a: string, x: string, b: string, y: string)
    requires BAR !in a && BAR !in b && a + [BAR] + x == b + [BAR] + y
    ensures a == b && x == y
  {
    var s, t := a + [BAR] + x, b + [BAR] + y;
    assert s[|a|] == BAR && t[|b|] == BAR;
    assert forall i | 0 <= i < |a| :: s[i] == a[i] && a[i] != BAR;
    assert forall i | 0 <= i < |b| :: t[i] == b[i] && b[i] != BAR;
    assert s[..|a|] == a && t[..|b|] == b;
    assert s[|a| + 1..] == x && t[|b| + 1..] == y;
  }

  /** The last bar starts a field that holds none. */
  lemma SplitAtLastBar(x: string, a: string, y: string, b: string)
    requires BAR !in a && BAR !in b && x + [BAR] + a == y + [BAR] + b
    ensures x == y && a == b
  {
    var s, t := x + [BAR] + a, y + [BAR] + b;
    assert s[|x|] == BAR && t[|y|] == BAR;
    assert forall i | |x| < i < |s| :: s[i] == a[i - |x| - 1] && s[i] != BAR;
    assert forall i | |y| < i < |t| :: t[i] == b[i - |y| - 1] && t[i] != BAR;
    assert s[..|x|] == x && t[..|y|] == y;
    assert s[|x| + 1..] == a && t[|y| + 1..] == b;
  }

  function PayloadOf(e: Entry, prevHash: string): string {
    Payload(prevHash, e.seqNo, e.actor, e.action, e.details, e.createdAt)
  }

  /** Whatever the other fields hold, the text fixes the previous hash and the sequence number. */
  lemma PayloadFixesPlace(e: Entry, p: string, f: Entry, q: string)
    requires BAR !in p && BAR !in q && PayloadOf(e, p) == PayloadOf(f, q)
    ensures p == q && e.seqNo == f.seqNo
    ensures Tail(e.actor, e.action, e.details, e.createdAt) == Tail(f.actor, f.action, f.details, f.createdAt)
  {
    var x := Tail(e.actor, e.action, e.details, e.createdAt);
    var y := Tail(f.actor, f.action, f.details, f.createdAt);
    SplitAtFirstBar(p, Decimal(e.seqNo) + [BAR] + x, q, Decimal(f.seqNo) + [BAR] + y);
    DecimalIsInjective(f.seqNo, e.seqNo);
    DecimalIsInjective(e.seqNo, f.seqNo);
    SplitAtFirstBar(Decimal(e.seqNo), x, Decimal(f.seqNo), y);
  }

  /** The two entries agree in everything that is hashed, apart from the previous hash. */
  predicate SameFields(e: Entry, f: Entry) {
    e == f.(hash := e.hash, prevHash := e.prevHash)
  }

  predicate Plain(e: Entry) {
    BAR !in e.actor && BAR !in e.action
  }

  /** The text is unambiguous when actor and action hold no bar; the details may hold any. */
  lemma PayloadIsInjective(e: Entry, p: string, f: Entry, q: string)
    requires BAR !in p && BAR !in q && Plain(e) && Plain(f) && PayloadOf(e, p) == PayloadOf(f, q)
    ensures p == q && SameFields(e, f)
  {
    PayloadFixesPlace(e, p, f, q);
    SplitAtFirstBar(e.actor, e.action + [BAR] + (e.details + [BAR] + Decimal(e.createdAt)),
                    f.actor, f.action + [BAR] + (f.details + [BAR] + Decimal(f.createdAt)));
    SplitAtFirstBar(e.action, e.details + [BAR] + Decimal(e.createdAt),
                    f.action, f.details + [BAR] + Decimal(f.createdAt));
    DecimalIsInjective(e.createdAt, f.createdAt);
    DecimalIsInjective(f.createdAt, e.createdAt);
    SplitAtLastBar(e.details, Decimal(e.createdAt), f.details, Decimal(f.createdAt));
  }

  predicate BarFree(e: Entry) {
    Plain(e) && BAR !in e.details
  }

  lemma BarAt(s: string) returns (x: string, y: string)
    requires BAR in s
    ensures s == x + [BAR] + y && |x| < |s|
  {
    var i :| 0 <= i < |s| && s[i] == BAR;
    x, y := s[..i], s[i + 1..];
  }

  /** A bar inside a field can be read as its end. */
  lemma ShiftFirst(x: string, y: string, rest: string)
    ensures (x + [BAR] + y) + [BAR] + rest == x + [BAR] + ((y + [BAR]) + rest)
  {
  }

  lemma BarInActor(x: string, y: string, action: string, details: string, at: int)
    ensures Tail(x + [BAR] + y, action, details, at) == Tail(x, y + [BAR] + action, details, at)
  {
    var rest := action + [BAR] + (details + [BAR] + Decimal(at));
    ShiftFirst(x, y, rest);
    assert (y + [BAR]) + rest == (y + [BAR] + action) + [BAR] + (details + [BAR] + Decimal(at));
  }

  lemma BarInAction(actor: string, x: string, y: string, details: string, at: int)
    ensures Tail(actor, x + [BAR] + y, details, at) == Tail(actor, x, y + [BAR] + details, at)
  {
    var rest := details + [BAR] + Decimal(at);
    ShiftFirst(x, y, rest);
    assert (y + [BAR]) + rest == (y + [BAR] + details) + [BAR] + Decimal(at);
  }

  lemma BarInDetails(actor: string, action: string, x: string, y: string, at: int)
    ensures Tail(actor, action, x + [BAR] + y, at) == Tail(actor, action + [BAR] + x, y, at)
  {
    BarInAction(actor, action, x, y, at);
  }

  /** With a bar in the actor, the action or the details some different entry has the same text. */
  lemma PayloadAmbiguousWithBar(e: Entry, p: string) returns (f: Entry)
    requires !BarFree(e)
    ensures PayloadOf(f, p) == PayloadOf(e, p) && !SameFields(e, f)
  {
    if BAR in e.actor {
      var x, y := BarAt(e.actor);
      f := e.(actor := x, action := y + [BAR] + e.action);
      BarInActor(x, y, e.action, e.details, e.createdAt);
    } else if BAR in e.action {
      var x, y := BarAt(e.action);
      f := e.(action := x, details := y + [BAR] + e.details);
      BarInAction(e.actor, x, y, e.details, e.createdAt);
    } else {
      var x, y := BarAt(e.details);
      f := e.(action := e.action + [BAR] + x, details := y);
      BarInDetails(e.actor, e.action, x, y, e.createdAt);
      assert |f.action| > |e.action|;
    }
  }

  lemma BarsOfTail(actor: string, action: string, details: string, at: int)
    ensures multiset(Tail(actor, action, details, at))[BAR]
         == 3 + multiset(actor)[BAR] + multiset(action)[BAR] + multiset(details)[BAR]
  {
    DecimalIsInjective(at, at);
  }

  /** A text with as few bars as the fields need has no fields with bars. */
  lemma BarFreeSpreads(e: Entry, p: string, f: Entry, q: string)
    requires BAR !in p && BAR !in q && BarFree(e) && PayloadOf(e, p) == PayloadOf(f, q)
    ensures BarFree(f)
  {
    PayloadFixesPlace(e, p, f, q);
    BarsOfTail(e.actor, e.action, e.details, e.createdAt);
    BarsOfTail(f.actor, f.action, f.details, f.createdAt);
  }

  /** The text of an entry belongs to no other entry, with whatever previous hash, if and only if its actor, action and
      details all hold no bar. */
  lemma PayloadUniqueExactly(e: Entry, p: string)
    requires BAR !in p
    ensures BarFree(e) <==>
      forall f, q | BAR !in q && PayloadOf(e, p) == PayloadOf(f, q) :: p == q && SameFields(e, f)
  {
    if BarFree(e) {
      forall f, q | BAR !in q && PayloadOf(e, p) == PayloadOf(f, q) ensures p == q && SameFields(e, f) {
        BarFreeSpreads(e, p, f, q);
        PayloadIsInjective(e, p, f, q);
      }
    } else {
      var f := PayloadAmbiguousWithBar(e, p);
      assert PayloadOf(e, p) == PayloadOf(f, p) && !SameFields(e, f);
    }
  }

  // ---------- the digest of an entry ----------

  /** The hash an entry gets after a given previous hash; its own two hash fields do not matter. */
  type Digest = (string, Entry) -> string

  /** `hash_entry`. */
  function HashEntry(h: Hash): Digest {
    (p: string, e: Entry) => h(PayloadOf(e, p))
  }

  /** Equal digests come from the same previous hash and the same place, and for bar-free entries from the same entry;
      a digest holds no bar. */
  ghost predicate SoundAt(g: Digest, p: string, e: Entry, q: string, f: Entry) {
    && BAR !in g(p, e)
    && (BAR !in p && BAR !in q && g(p, e) == g(q, f) ==>
          && p == q && e.seqNo == f.seqNo
          && (Plain(e) && Plain(f) ==> SameFields(e, f)))
  }

  ghost predicate Sound(g: Digest) {
    forall p, e, q, f {:trigger SoundAt(g, p, e, q, f)} :: SoundAt(g, p, e, q, f)
  }

  /** The digest does not look at the two hash fields. */
  ghost predicate IgnoresHashes(g: Digest) {
    forall p, e: Entry, x, y :: g(p, e.(prevHash := x, hash := y)) == g(p, e)
  }

  lemma HashEntryIsSoundAt(h: Hash, p: string, e: Entry, q: string, f: Entry)
    requires IdealHash(h)
    ensures SoundAt(HashEntry(h), p, e, q, f)
  {
    var x, y := PayloadOf(e, p), PayloadOf(f, q);
    assert BAR !in h(x) && (h(x) == h(y) ==> x == y);
    if BAR !in p && BAR !in q && h(x) == h(y) {
      PayloadFixesPlace(e, p, f, q);
      if Plain(e) && Plain(f) {
        PayloadIsInjective(e, p, f, q);
      }
    }
  }

  /** A collision-free hash makes the digest sound. */
  lemma HashEntryIsSound(h: Hash)
    requires IdealHash(h)
    ensures Sound(HashEntry(h))
  {
    forall p, e, q, f ensures SoundAt(HashEntry(h), p, e, q, f) {
      HashEntryIsSoundAt(h, p, e, q, f);
    }
  }

  lemma HashEntryIgnoresHashes(h: Hash)
    ensures IgnoresHashes(HashEntry(h))
  {
    forall p, e: Entry, x, y ensures HashEntry(h)(p, e.(prevHash := x, hash := y)) == HashEntry(h)(p, e) {
      assert PayloadOf(e.(prevHash := x, hash := y), p) == PayloadOf(e, p);
    }
  }

  // ---------- chains ----------

  function HashBefore(rows: seq<Entry>, i: nat): string
    requires i <= |rows|
  {
    if i == 0 then GENESIS else rows[i - 1].hash
  }

  function SeqBefore(rows: seq<Entry>, i: nat): int
    requires i <= |rows|
  {
    if i == 0 then 0 else rows[i - 1].seqNo
  }

  function PrevHash(rows: seq<Entry>): string {
    HashBefore(rows, |rows|)
  }

  function PrevSeq(rows: seq<Entry>): int {
    SeqBefore(rows, |rows|)
  }

  /** The row continues a log that ends in this hash and sequence number. */
  predicate Follows(g: Digest, prevHash: string, prevSeq: int, e: Entry) {
    && e.seqNo == prevSeq + 1
    && e.prevHash == prevHash
    && e.hash == g(prevHash, e)
  }

  predicate Chained(g: Digest, rows: seq<Entry>) {
    forall i {:trigger HashBefore(rows, i)} | 0 <= i < |rows| ::
      Follows(g, HashBefore(rows, i), SeqBefore(rows, i), rows[i])
  }

  datatype Broken = Gap(at: int) | PrevMismatch(at: int) | HashMismatch(at: int) | NotJson

  function BrokenAt(g: Digest, prevHash: string, prevSeq: int, e: Entry): seq<Broken> {
    (if e.seqNo != prevSeq + 1 then [Gap(e.seqNo)] else [])
    + (if e.prevHash != prevHash then [PrevMismatch(e.seqNo)] else [])
    + (if e.hash != g(prevHash, e)
       then [HashMismatch(e.seqNo)] else [])
  }

  /** Every finding, row by row. */
  function BrokenRows(g: Digest, rows: seq<Entry>): seq<Broken> {
    if rows == [] then []
    else
      var before := rows[..|rows| - 1];
      BrokenRows(g, before) + BrokenAt(g, PrevHash(before), PrevSeq(before), rows[|rows| - 1])
  }

  lemma ChainedPrefix(g: Digest, rows: seq<Entry>, n: nat)
    requires Chained(g, rows) && n <= |rows|
    ensures Chained(g, rows[..n])
  {
    forall i | 0 <= i < n ensures Follows(g, HashBefore(rows[..n], i), SeqBefore(rows[..n], i), rows[..n][i]) {
      assert Follows(g, HashBefore(rows, i), SeqBefore(rows, i), rows[i]);
    }
  }

  lemma ChainedGrows(g: Digest, rows: seq<Entry>, e: Entry)
    requires Chained(g, rows) && Follows(g, PrevHash(rows), PrevSeq(rows), e)
    ensures Chained(g, rows + [e])
  {
    var all := rows + [e];
    forall i | 0 <= i < |all| ensures Follows(g, HashBefore(all, i), SeqBefore(all, i), all[i]) {
      if i < |rows| {
        assert Follows(g, HashBefore(rows, i), SeqBefore(rows, i), rows[i]);
      }
    }
  }

  lemma LastFollows(g: Digest, rows: seq<Entry>)
    requires Chained(g, rows) && rows != []
    ensures var n := |rows| - 1;
            Chained(g, rows[..n]) && Follows(g, PrevHash(rows[..n]), PrevSeq(rows[..n]), rows[n])
  {
    var n := |rows| - 1;
    ChainedPrefix(g, rows, n);
    assert Follows(g, HashBefore(rows, n), SeqBefore(rows, n), rows[n]);
  }

  /** A log verifies exactly when it is a chain. */
  lemma {:induction false} VerifiesExactly(g: Digest, rows: seq<Entry>)
    ensures BrokenRows(g, rows) == [] <==> Chained(g, rows)
  {
    if rows != [] {
      var before, last := rows[..|rows| - 1], rows[|rows| - 1];
      VerifiesExactly(g, before);
      assert rows == before + [last];
      if Chained(g, rows) {
        LastFollows(g, rows);
      }
      if Chained(g, before) && Follows(g, PrevHash(before), PrevSeq(before), last) {
        ChainedGrows(g, before, last);
      }
    }
  }

  /** Sequence numbers count from one. */
  lemma {:induction false} SeqIsIndex(g: Digest, rows: seq<Entry>, i: nat)
    requires Chained(g, rows) && i < |rows|
    ensures rows[i].seqNo == i + 1
  {
    if i > 0 {
      SeqIsIndex(g, rows, i - 1);
    }
    assert Follows(g, HashBefore(rows, i), SeqBefore(rows, i), rows[i]);
  }

  lemma NoBarBefore(g: Digest, rows: seq<Entry>, i: nat)
    requires Sound(g) && Chained(g, rows) && i <= |rows|
    ensures BAR !in HashBefore(rows, i)
  {
    if i > 0 {
      assert Follows(g, HashBefore(rows, i - 1), SeqBefore(rows, i - 1), rows[i - 1]);
      var p, e := HashBefore(rows, i - 1), rows[i - 1];
      assert SoundAt(g, p, e, p, e);
    }
  }

  ghost predicate AllPlain(rows: seq<Entry>) {
    forall i | 0 <= i < |rows| :: Plain(rows[i])
  }

  /** Rows of two chains with the same hash are the same row at the same place after the same history hash. */
  lemma SameHashSameRow(g: Digest, rows: seq<Entry>, i: nat, other: seq<Entry>, j: nat)
    requires Sound(g) && Chained(g, rows) && Chained(g, other)
    requires i < |rows| && j < |other| && rows[i].hash == other[j].hash
    ensures i == j && HashBefore(rows, i) == HashBefore(other, j)
    ensures Plain(rows[i]) && Plain(other[j]) ==> rows[i] == other[j]
  {
    NoBarBefore(g, rows, i);
    NoBarBefore(g, other, j);
    SeqIsIndex(g, rows, i);
    SeqIsIndex(g, other, j);
    assert Follows(g, HashBefore(rows, i), SeqBefore(rows, i), rows[i]);
    assert Follows(g, HashBefore(other, j), SeqBefore(other, j), other[j]);
    assert SoundAt(g, HashBefore(rows, i), rows[i], HashBefore(other, j), other[j]);
  }

  lemma {:induction false} AgreeBelow(g: Digest, rows: seq<Entry>, other: seq<Entry>, n: nat)
    requires Sound(g) && Chained(g, rows) && Chained(g, other)
    requires AllPlain(rows) && AllPlain(other) && n <= |rows| && n <= |other|
    requires HashBefore(rows, n) == HashBefore(other, n)
    ensures forall k | 0 <= k < n :: rows[k] == other[k]
  {
    if n > 0 {
      SameHashSameRow(g, rows, n - 1, other, n - 1);
      AgreeBelow(g, rows, other, n - 1);
    }
  }

  lemma LastDigestFixesLog(g: Digest, rows: seq<Entry>, other: seq<Entry>)
    requires Sound(g) && AllPlain(rows) && AllPlain(other)
    requires BrokenRows(g, rows) == [] && BrokenRows(g, other) == []
    requires rows != [] && other != [] && PrevHash(rows) == PrevHash(other)
    ensures rows == other
  {
    VerifiesExactly(g, rows);
    VerifiesExactly(g, other);
    SameHashSameRow(g, rows, |rows| - 1, other, |other| - 1);
    AgreeBelow(g, rows, other, |rows|);
  }

  /** Tamper evidence: two non-empty logs that both verify and end in the same hash are identical, row for row. */
  lemma LastHashFixesLog(h: Hash, rows: seq<Entry>, other: seq<Entry>)
    requires IdealHash(h) && AllPlain(rows) && AllPlain(other)
    requires BrokenRows(HashEntry(h), rows) == [] && BrokenRows(HashEntry(h), other) == []
    requires rows != [] && other != [] && PrevHash(rows) == PrevHash(other)
    ensures rows == other
  {
    HashEntryIsSound(h);
    LastDigestFixesLog(HashEntry(h), rows, other);
  }

  /** The row `append_in_connection` inserts. */
  function NextEntry(g: Digest, rows: seq<Entry>, actor: string, action: string, details: string, now: int): Entry {
    var e := Entry(PrevSeq(rows) + 1, actor, action, details, PrevHash(rows), "", now);
    e.(hash := g(PrevHash(rows), e))
  }

  /** The next row in full: numbered from one, chained to the last hash or to GENESIS, with the given fields, and hashed
      over them. */
  predicate NextInFull(g: Digest, rows: seq<Entry>, actor: string, action: string, details: string, now: int, e: Entry) {
    && e.seqNo == (if rows == [] then 1 else rows[|rows| - 1].seqNo + 1)
    && e.prevHash == (if rows == [] then "GENESIS" else rows[|rows| - 1].hash)
    && e.actor == actor && e.action == action && e.details == details && e.createdAt == now
    && e.hash == g(e.prevHash, e.(hash := ""))
  }

  lemma NextExactly(g: Digest, rows: seq<Entry>, actor: string, action: string, details: string, now: int)
    ensures NextInFull(g, rows, actor, action, details, now, NextEntry(g, rows, actor, action, details, now))
  {
    var e := NextEntry(g, rows, actor, action, details, now);
    assert e.(hash := "") == Entry(e.seqNo, actor, action, details, e.prevHash, "", now);
  }

  /** With the digest of the two logs, the hash of a next row is that of the spelled-out text. */
  lemma NextHashExactly(h: Hash, rows: seq<Entry>, actor: string, action: string, details: string, now: int, e: Entry)
    requires NextInFull(HashEntry(h), rows, actor, action, details, now, e)
    ensures e.hash
         == h(e.prevHash + "|" + Decimal(e.seqNo) + "|" + actor + "|" + action + "|" + details + "|" + Decimal(now))
  {
    PayloadExactly(e.prevHash, e.seqNo, actor, action, details, now);
    assert PayloadOf(e.(hash := ""), e.prevHash) == Payload(e.prevHash, e.seqNo, actor, action, details, now);
  }

  /** Appending to a log that verifies gives a log that verifies. */
  lemma AppendKeepsChain(g: Digest, rows: seq<Entry>, actor: string, action: string, details: string, now: int)
    requires Chained(g, rows) && IgnoresHashes(g)
    ensures Chained(g, rows + [NextEntry(g, rows, actor, action, details, now)])
  {
    var e := NextEntry(g, rows, actor, action, details, now);
    assert e == e.(hash := "").(prevHash := PrevHash(rows), hash := e.hash);
    ChainedGrows(g, rows, e);
  }

  /** Entries of one chain have different hashes, bars in their fields or not. */
  lemma HashesDiffer(g: Digest, rows: seq<Entry>, i: nat, j: nat)
    requires Sound(g) && Chained(g, rows) && i < j < |rows|
    ensures rows[i].hash != rows[j].hash
  {
    if rows[i].hash == rows[j].hash {
      SameHashSameRow(g, rows, i, rows, j);
    }
  }
}
