// The deterministic keys of simulation findings, as text, and the table that keeps one finding a key.

module Findings {
  import opened Ordering
  import opened Estate
  import opened Traversal

  /** What a finding is about: the part of its key after the ordinal. */
  datatype Label =
    | SeedStop(fact: FactId)
    | SeedDirect(fact: FactId)
    | Walked(classification: Classification, relation: string, via: Option<FactId>, entity: EntityId)
    | Halted(relation: string, via: Option<FactId>, entity: EntityId)
    | Capability(entity: EntityId)
    | Memory
    | Spread

  /** What else a finding states about where it comes from. */
  datatype Payload =
    | SeedHalt(reason: StopReason)
    | SeedMove(before: string, path: Option<string>)
    | WalkReach(relation: string, depth: nat, weight: real)
    | WalkHalt(relation: string, reason: StopReason, depth: nat)
    | CuratedBy(criticality: int, source: nat, applications: set<EntityId>)
    | Outcomes
    | Spreading(moved: nat, stayed: nat, transitive: nat, context: nat)

  datatype Finding = Finding(ordinal: nat, about: Label, classification: Classification, entity: EntityId,
                             evidence: seq<FactId>, path: seq<EntityId>, confidence: real, payload: Payload)

  // ---- Key text

  function Word(c: Classification): string {
    match c
    case Direct => "direct"
    case Transitive => "transitive"
    case Context => "context"
    case Stop => "stop"
    case Informational => "informational"
  }

  function Digit(d: nat): char
    requires d < 10
  {
    "0123456789"[d]
  }

  function Decimal(n: nat): (s: string)
    ensures |s| > 0
  {
    if n < 10 then [Digit(n)] else Decimal(n / 10) + [Digit(n % 10)]
  }

  /** The text of an absent fact id is the word None. */
  function FactText(id: nat -> string, f: Option<FactId>): string {
    if f.Some? then id(f.value) else "None"
  }

  function Tail(id: nat -> string, relation: string, f: Option<FactId>, e: EntityId): string {
    relation + ":" + (FactText(id, f) + ":" + id(e))
  }

  function LabelText(id: nat -> string, l: Label): string {
    match l
    case SeedStop(f) => "stop" + ":" + id(f)
    case SeedDirect(f) => "direct" + ":" + id(f)
    case Walked(c, relation, f, e) => Word(c) + ":" + Tail(id, relation, f, e)
    case Halted(relation, f, e) => "stop" + ":" + Tail(id, relation, f, e)
    case Capability(e) => "capability" + ":" + id(e)
    case Memory => "informational" + ":" + "qualified-change-memory"
    case Spread => "informational" + ":" + "version-spread"
  }

  function KeyText(id: nat -> string, ordinal: nat, l: Label): string {
    ("m" + Decimal(ordinal)) + ":" + LabelText(id, l)
  }

  predicate Plain(s: string) {
    forall i :: 0 <= i < |s| ==> s[i] != ':'
  }

  /** What UUID text is like: different for different ids, free of colons, never the word None. */
  ghost predicate Names(id: nat -> string) {
    && (forall a, b :: id(a) == id(b) ==> a == b)
    && (forall a :: Plain(id(a)) && id(a) != "None")
  }

  // ---- Reading a key back

  lemma {:induction false} CutFirst(a: string, x: string, b: string, y: string)
    requires Plain(a) && Plain(b) && a + ":" + x == b + ":" + y
    ensures a == b && x == y
    decreases |a|
  {
    var s, t := a + ":" + x, b + ":" + y;
    assert s[0] == t[0];
    if a == "" || b == "" {
      assert a == b;
      assert s[1..] == x && t[1..] == y;
    } else {
      assert s[1..] == a[1..] + ":" + x && t[1..] == b[1..] + ":" + y;
      CutFirst(a[1..], x, b[1..], y);
      assert a == [a[0]] + a[1..] && b == [b[0]] + b[1..];
    }
  }

  lemma {:induction false} CutLast(x: string, a: string, y: string, b: string)
    requires Plain(a) && Plain(b) && x + ":" + a == y + ":" + b
    ensures a == b && x == y
    decreases |a|
  {
    var s, t := x + ":" + a, y + ":" + b;
    assert s[|s| - 1] == t[|t| - 1];
    if a == "" || b == "" {
      assert a == b;
      assert s[..|s| - 1] == x && t[..|t| - 1] == y;
    } else {
      var m, n := |a| - 1, |b| - 1;
      assert s[..|s| - 1] == x + ":" + a[..m] && t[..|t| - 1] == y + ":" + b[..n];
      CutLast(x, a[..m], y, b[..n]);
      assert a == a[..m] + [a[m]] && b == b[..n] + [b[n]];
    }
  }

  lemma TailIsNotPlain(id: nat -> string, relation: string, f: Option<FactId>, e: EntityId)
    ensures !Plain(Tail(id, relation, f, e))
  {
    assert Tail(id, relation, f, e)[|relation|] == ':';
  }

  lemma TailReads(id: nat -> string, r: string, f: Option<FactId>, e: EntityId, r': string, f': Option<FactId>,
                  e': EntityId)
    requires Names(id) && Tail(id, r, f, e) == Tail(id, r', f', e')
    ensures r == r' && f == f' && e == e'
  {
    var a, b := r + ":" + FactText(id, f), r' + ":" + FactText(id, f');
    assert Tail(id, r, f, e) == a + ":" + id(e) && Tail(id, r', f', e') == b + ":" + id(e');
    CutLast(a, id(e), b, id(e'));
    CutLast(r, FactText(id, f), r', FactText(id, f'));
  }

  lemma {:induction false} DecimalReads(m: nat, n: nat)
    requires Decimal(m) == Decimal(n)
    ensures m == n
  {
    var s, t := Decimal(m), Decimal(n);
    assert s[|s| - 1] == Digit(m % 10) && t[|t| - 1] == Digit(n % 10);
    SameDigit(m % 10, n % 10);
    if m >= 10 && n >= 10 {
      assert s[..|s| - 1] == Decimal(m / 10) && t[..|t| - 1] == Decimal(n / 10);
      DecimalReads(m / 10, n / 10);
    }
  }

  lemma SameDigit(d: nat, e: nat)
    requires d < 10 && e < 10 && Digit(d) == Digit(e)
    ensures d == e
  {}

  lemma {:induction false} DecimalIsPlain(n: nat)
    ensures Plain(Decimal(n))
  {
    if n >= 10 {
      DecimalIsPlain(n / 10);
    }
  }

  /** A rule classified STOP writes the key of a stopped branch; no other two labels share a text. */
  function Canonical(l: Label): Label {
    if l.Walked? && l.classification == Stop then Halted(l.relation, l.via, l.entity) else l
  }

  /** First segment and remainder of a label's text. */
  function Head(l: Label): string {
    match l
    case SeedStop(_) => "stop"
    case SeedDirect(_) => "direct"
    case Walked(c, _, _, _) => Word(c)
    case Halted(_, _, _) => "stop"
    case Capability(_) => "capability"
    case Memory => "informational"
    case Spread => "informational"
  }

  function Rest(id: nat -> string, l: Label): string {
    match l
    case SeedStop(f) => id(f)
    case SeedDirect(f) => id(f)
    case Walked(_, relation, f, e) => Tail(id, relation, f, e)
    case Halted(relation, f, e) => Tail(id, relation, f, e)
    case Capability(e) => id(e)
    case Memory => "qualified-change-memory"
    case Spread => "version-spread"
  }

  predicate Long(l: Label) {
    l.Walked? || l.Halted?
  }

  lemma RestIsPlain(id: nat -> string, l: Label)
    requires Names(id)
    ensures Plain(Head(l)) && (Plain(Rest(id, l)) <==> !Long(l))
  {
    if Long(l) {
      TailIsNotPlain(id, l.relation, l.via, l.entity);
    }
  }

  lemma WordReads(c: Classification, d: Classification)
    requires Word(c) == Word(d)
    ensures c == d
  {
    assert |Word(c)| == |Word(d)|;
  }

  lemma ShortReads(id: nat -> string, l: Label, l': Label)
    requires Names(id) && !Long(l) && !Long(l') && Head(l) == Head(l') && Rest(id, l) == Rest(id, l')
    ensures l == l'
  {
    assert |Head(l)| == |Head(l')|;
    if l.Memory? || l.Spread? {
      assert |Rest(id, l)| == |Rest(id, l')|;
    }
  }

  lemma LongReads(id: nat -> string, l: Label, l': Label)
    requires Names(id) && Long(l) && Long(l') && Head(l) == Head(l') && Rest(id, l) == Rest(id, l')
    ensures Canonical(l) == Canonical(l')
  {
    TailReads(id, l.relation, l.via, l.entity, l'.relation, l'.via, l'.entity);
    WordReads(if l.Walked? then l.classification else Stop, if l'.Walked? then l'.classification else Stop);
  }

  lemma LabelReads(id: nat -> string, l: Label, l': Label)
    requires Names(id)
    ensures LabelText(id, l) == LabelText(id, l') <==> Canonical(l) == Canonical(l')
  {
    assert LabelText(id, l) == Head(l) + ":" + Rest(id, l) && LabelText(id, l') == Head(l') + ":" + Rest(id, l');
    if LabelText(id, l) == LabelText(id, l') {
      RestIsPlain(id, l);
      RestIsPlain(id, l');
      CutFirst(Head(l), Rest(id, l), Head(l'), Rest(id, l'));
      if Long(l) {
        LongReads(id, l, l');
      } else {
        ShortReads(id, l, l');
      }
    }
  }

  /** Findings of different mutations never share a key, and two of one mutation only where their labels coincide. */
  lemma KeyReads(id: nat -> string, m: nat, l: Label, n: nat, l': Label)
    requires Names(id)
    ensures KeyText(id, m, l) == KeyText(id, n, l') <==> m == n && Canonical(l) == Canonical(l')
  {
    if KeyText(id, m, l) == KeyText(id, n, l') {
      DecimalIsPlain(m);
      DecimalIsPlain(n);
      CutFirst("m" + Decimal(m), LabelText(id, l), "m" + Decimal(n), LabelText(id, l'));
      assert ("m" + Decimal(m))[1..] == Decimal(m) && ("m" + Decimal(n))[1..] == Decimal(n);
      DecimalReads(m, n);
    }
    LabelReads(id, l, l');
  }

  // ---- The findings table

  function FindingKey(id: nat -> string, f: Finding): string {
    KeyText(id, f.ordinal, f.about)
  }

  /** INSERT ... ON CONFLICT DO NOTHING, finding by finding. */
  function Merge(id: nat -> string, table: map<string, Finding>, fs: seq<Finding>): map<string, Finding>
    decreases |fs|
  {
    if fs == [] then table
    else
      var before, f := Merge(id, table, fs[..|fs| - 1]), fs[|fs| - 1];
      if FindingKey(id, f) in before then before else before[FindingKey(id, f) := f]
  }

  ghost predicate KeysDiffer(id: nat -> string, fs: seq<Finding>) {
    forall i, j :: 0 <= i < j < |fs| ==> FindingKey(id, fs[i]) != FindingKey(id, fs[j])
  }

  lemma {:induction false} MergeKeeps(id: nat -> string, table: map<string, Finding>, fs: seq<Finding>)
    ensures forall k :: k in table ==> k in Merge(id, table, fs) && Merge(id, table, fs)[k] == table[k]
    decreases |fs|
  {
    if fs != [] {
      MergeKeeps(id, table, fs[..|fs| - 1]);
    }
  }

  lemma {:induction false} MergeCovers(id: nat -> string, table: map<string, Finding>, fs: seq<Finding>)
    ensures forall f :: f in fs ==> FindingKey(id, f) in Merge(id, table, fs)
    decreases |fs|
  {
    if fs != [] {
      MergeCovers(id, table, fs[..|fs| - 1]);
      assert fs == fs[..|fs| - 1] + [fs[|fs| - 1]];
    }
  }

  lemma {:induction false} MergeComesFrom(id: nat -> string, table: map<string, Finding>, fs: seq<Finding>, k: string)
    requires k in Merge(id, table, fs) && k !in table
    ensures Merge(id, table, fs)[k] in fs && FindingKey(id, Merge(id, table, fs)[k]) == k
    decreases |fs|
  {
    var front, f := fs[..|fs| - 1], fs[|fs| - 1];
    assert fs == front + [f];
    if k in Merge(id, table, front) {
      MergeComesFrom(id, table, front, k);
    }
  }

  lemma {:induction false} MergeSize(id: nat -> string, fs: seq<Finding>)
    ensures |Merge(id, map[], fs)| <= |fs|
    decreases |fs|
  {
    if fs != [] {
      MergeSize(id, fs[..|fs| - 1]);
    }
  }

  /** Running the same findings in again changes nothing. */
  lemma {:induction false} MergeAgain(id: nat -> string, table: map<string, Finding>, fs: seq<Finding>)
    requires forall f :: f in fs ==> FindingKey(id, f) in table
    ensures Merge(id, table, fs) == table
    decreases |fs|
  {
    if fs != [] {
      MergeAgain(id, table, fs[..|fs| - 1]);
    }
  }

  lemma ReexecutionAddsNothing(id: nat -> string, table: map<string, Finding>, fs: seq<Finding>)
    ensures Merge(id, Merge(id, table, fs), fs) == Merge(id, table, fs)
  {
    MergeCovers(id, table, fs);
    MergeAgain(id, Merge(id, table, fs), fs);
  }

  lemma {:induction false} FreshKey(id: nat -> string, front: seq<Finding>, f: Finding)
    ensures FindingKey(id, f) in Merge(id, map[], front)
            <==> exists i :: 0 <= i < |front| && FindingKey(id, front[i]) == FindingKey(id, f)
  {
    MergeCovers(id, map[], front);
    var k := FindingKey(id, f);
    if k in Merge(id, map[], front) {
      MergeComesFrom(id, map[], front, k);
    } else {
      forall i | 0 <= i < |front| ensures FindingKey(id, front[i]) != k { assert front[i] in front; }
    }
  }

  lemma MergeNext(id: nat -> string, front: seq<Finding>, f: Finding)
    ensures |Merge(id, map[], front + [f])|
            == |Merge(id, map[], front)| + if FindingKey(id, f) in Merge(id, map[], front) then 0 else 1
  {
    assert (front + [f])[..|front|] == front;
    var before := Merge(id, map[], front);
    if FindingKey(id, f) !in before {
      assert before[FindingKey(id, f) := f].Keys == before.Keys + {FindingKey(id, f)};
    }
  }

  lemma KeyRepeats(id: nat -> string, front: seq<Finding>, f: Finding)
    requires FindingKey(id, f) in Merge(id, map[], front)
    ensures !KeysDiffer(id, front + [f])
  {
    FreshKey(id, front, f);
    var i :| 0 <= i < |front| && FindingKey(id, front[i]) == FindingKey(id, f);
    assert (front + [f])[i] == front[i] && (front + [f])[|front|] == f;
  }

  /** The table holds as many rows as there are findings exactly when no two of them share a key. */
  lemma {:induction false} OneRowEach(id: nat -> string, fs: seq<Finding>)
    ensures |Merge(id, map[], fs)| == |fs| <==> KeysDiffer(id, fs)
    decreases |fs|
  {
    if fs != [] {
      var front, f := fs[..|fs| - 1], fs[|fs| - 1];
      assert fs == front + [f];
      OneRowEach(id, front);
      MergeSize(id, front);
      MergeNext(id, front, f);
      if FindingKey(id, f) in Merge(id, map[], front) {
        KeyRepeats(id, front, f);
      } else {
        FreshKey(id, front, f);
        DiffersLast(id, front, f);
      }
    }
  }

  /** And then each row is its finding. */
  lemma {:induction false} RowsAreFindings(id: nat -> string, fs: seq<Finding>, f: Finding)
    requires KeysDiffer(id, fs) && f in fs
    ensures FindingKey(id, f) in Merge(id, map[], fs) && Merge(id, map[], fs)[FindingKey(id, f)] == f
  {
    MergeCovers(id, map[], fs);
    var k := FindingKey(id, f);
    MergeComesFrom(id, map[], fs, k);
    var i :| 0 <= i < |fs| && fs[i] == f;
    var j :| 0 <= j < |fs| && fs[j] == Merge(id, map[], fs)[k];
    assert i == j;
  }

  lemma DiffersLast(id: nat -> string, front: seq<Finding>, f: Finding)
    requires forall i :: 0 <= i < |front| ==> FindingKey(id, front[i]) != FindingKey(id, f)
    ensures KeysDiffer(id, front + [f]) <==> KeysDiffer(id, front)
  {
    var fs := front + [f];
    if KeysDiffer(id, fs) {
      forall i, j | 0 <= i < j < |front| ensures FindingKey(id, front[i]) != FindingKey(id, front[j]) {
        assert fs[i] == front[i] && fs[j] == front[j];
      }
    }
  }

  method Persist(id: nat -> string, table: map<string, Finding>, fs: seq<Finding>) returns (after: map<string, Finding>)
    ensures after == Merge(id, table, fs)
  {
    after := table;
    for i := 0 to |fs|
      invariant after == Merge(id, table, fs[..i])
    {
      assert fs[..i + 1][..i] == fs[..i];
      if FindingKey(id, fs[i]) !in after {
        after := after[FindingKey(id, fs[i]) := fs[i]];
      }
    }
    assert fs[..|fs|] == fs;
  }

  // ---- What a key spells

  function ValueOf(digits: string): int {
    if digits == "" then 0
    else ValueOf(digits[..|digits| - 1]) * 10 + (digits[|digits| - 1] as int - '0' as int)
  }

  lemma DigitReads(d: nat)
    requires d < 10
    ensures Digit(d) as int - '0' as int == d
  {
    assert "0123456789"[d] as int == '0' as int + d;
  }

  /** The decimal of a number reads as that number, without leading zeros. */
  lemma {:induction false} DecimalCounts(n: nat)
    ensures ValueOf(Decimal(n)) == n
    ensures Decimal(n)[0] == '0' ==> n == 0
  {
    DigitReads(n % 10);
    var s := Decimal(n);
    if n < 10 {
      assert s[..|s| - 1] == "";
      DigitReads(n);
    } else {
      DecimalCounts(n / 10);
      assert s[..|s| - 1] == Decimal(n / 10);
    }
  }

  lemma WordsAre()
    ensures Word(Direct) == "direct" && Word(Transitive) == "transitive" && Word(Context) == "context"
    ensures Word(Stop) == "stop" && Word(Informational) == "informational"
  {}

  lemma Colons(m: string, word: string, a: string, b: string, c: string)
    ensures m + ":" + (word + ":" + (a + ":" + (b + ":" + c))) == m + ":" + word + ":" + a + ":" + b + ":" + c
  {}

  lemma Colon(m: string, word: string, a: string)
    ensures m + ":" + (word + ":" + a) == m + ":" + word + ":" + a
  {}

  /** The keys of a dependency, a capability and the closing findings, letter by letter. */
  lemma KeysSpell(id: nat -> string, n: nat, f: FactId, e: EntityId)
    ensures KeyText(id, n, SeedStop(f)) == "m" + Decimal(n) + ":" + "stop" + ":" + id(f)
    ensures KeyText(id, n, SeedDirect(f)) == "m" + Decimal(n) + ":" + "direct" + ":" + id(f)
    ensures KeyText(id, n, Capability(e)) == "m" + Decimal(n) + ":" + "capability" + ":" + id(e)
    ensures KeyText(id, n, Memory) == "m" + Decimal(n) + ":" + "informational" + ":" + "qualified-change-memory"
    ensures KeyText(id, n, Spread) == "m" + Decimal(n) + ":" + "informational" + ":" + "version-spread"
  {
    Colon("m" + Decimal(n), "stop", id(f));
    Colon("m" + Decimal(n), "direct", id(f));
    Colon("m" + Decimal(n), "capability", id(e));
    Colon("m" + Decimal(n), "informational", "qualified-change-memory");
    Colon("m" + Decimal(n), "informational", "version-spread");
  }

  /** And of what the walk led to or stopped at: an absent fact is spelled None. */
  lemma WalkKeysSpell(id: nat -> string, n: nat, c: Classification, relation: string, f: Option<FactId>, e: EntityId)
    ensures var fact := if f.Some? then id(f.value) else "None";
            && KeyText(id, n, Walked(c, relation, f, e))
               == "m" + Decimal(n) + ":" + Word(c) + ":" + relation + ":" + fact + ":" + id(e)
            && KeyText(id, n, Halted(relation, f, e))
               == "m" + Decimal(n) + ":" + "stop" + ":" + relation + ":" + fact + ":" + id(e)
  {
    Colons("m" + Decimal(n), Word(c), relation, FactText(id, f), id(e));
    Colons("m" + Decimal(n), "stop", relation, FactText(id, f), id(e));
  }
}
