// Compiling a capability envelope: the band of every requested operation and the verdict over all of them.

module Envelope {
  type Id = nat

  datatype Band = Read | Execute | Conditional | Escalate | Prohibited
  datatype Verdict = Allow | Constrain | Defer | Deny
  datatype Code =
    | OperationProhibited | DestructiveOperation | Tier0ApprovalRequired | UnresolvedContradiction
    | LowContextConfidence | ExplicitEscalation | ConditionalOperation

  datatype Policy = Policy(minimumConfidence: real, prohibited: set<string>, destructive: set<string>)
  datatype Operation = Operation(key: string, band: Band, destructive: bool)
  datatype Context = Context(tier0: bool, contradictions: set<Id>, confidence: real, evidence: set<Id>)
  datatype Row = Row(key: string, band: Band, destructive: bool, codes: seq<Code>)

  // ---- Tokens of an operation key

  predicate Separator(c: char) {
    c == '.' || c == ':'
  }

  /** The pieces of a key between separators, the empty ones included. */
  function Split(key: string): (pieces: seq<string>)
    ensures |pieces| > 0
    decreases |key|
  {
    if key == "" then [""]
    else
      var rest := Split(key[1..]);
      if Separator(key[0]) then [""] + rest else [[key[0]] + rest[0]] + rest[1..]
  }

  /** Token `t` stands in the key from position `i`, bounded by separators or the ends. */
  predicate StandsAt(key: string, t: string, i: nat) {
    && i + |t| <= |key| && key[i..i + |t|] == t
    && (forall k :: 0 <= k < |t| ==> !Separator(t[k]))
    && (i == 0 || Separator(key[i - 1]))
    && (i + |t| == |key| || Separator(key[i + |t|]))
  }

  lemma {:induction false} FirstPiece(key: string)
    ensures StandsAt(key, Split(key)[0], 0)
    decreases |key|
  {
    if key != "" && !Separator(key[0]) {
      FirstPiece(key[1..]);
      var t := Split(key[1..])[0];
      assert key[0..1 + |t|] == [key[0]] + key[1..][0..|t|];
    }
  }

  lemma {:induction false} FirstStanding(key: string, t: string)
    requires StandsAt(key, t, 0)
    ensures t == Split(key)[0]
    decreases |key|
  {
    if key != "" && t != "" {
      assert t[0] == key[0] && !Separator(t[0]);
      assert key[1..][0..|t| - 1] == t[1..];
      FirstStanding(key[1..], t[1..]);
      assert t == [key[0]] + t[1..];
    }
  }

  lemma Shifted(key: string, t: string, i: nat)
    requires key != "" && i > 0
    ensures StandsAt(key, t, i) <==> StandsAt(key[1..], t, i - 1) && (i == 1 ==> Separator(key[0]))
  {
    if i + |t| <= |key| {
      assert key[i..i + |t|] == key[1..][i - 1..i - 1 + |t|];
    }
  }

  /** Splitting finds exactly the separator-bounded pieces of the key, wherever they stand. */
  lemma {:induction false} TokensStandInKey(key: string, t: string)
    ensures t in Split(key) <==> exists i: nat :: StandsAt(key, t, i)
    decreases |key|
  {
    FirstPiece(key);
    if exists i: nat :: StandsAt(key, t, i) {
      var i: nat :| StandsAt(key, t, i);
      StandingIsSplit(key, t, i);
    }
    if t in Split(key) {
      SplitIsStanding(key, t);
    }
  }

  lemma {:induction false} StandingIsSplit(key: string, t: string, i: nat)
    requires StandsAt(key, t, i)
    ensures t in Split(key)
    ensures i > 0 ==> t in Split(key)[1..]
    decreases |key|
  {
    if i == 0 {
      FirstStanding(key, t);
    } else {
      Shifted(key, t, i);
      StandingIsSplit(key[1..], t, i - 1);
    }
  }

  lemma {:induction false} SplitIsStanding(key: string, t: string)
    requires t in Split(key)
    ensures exists i: nat :: StandsAt(key, t, i)
    ensures t in Split(key)[1..] ==> exists i: nat :: i > 0 && StandsAt(key, t, i)
    decreases |key|
  {
    if t == Split(key)[0] {
      FirstPiece(key);
    }
    if t in Split(key)[1..] {
      if Separator(key[0]) {
        SplitIsStanding(key[1..], t);
        var i: nat :| StandsAt(key[1..], t, i);
        Shifted(key, t, i + 1);
      } else {
        assert t in Split(key[1..])[1..];
        SplitIsStanding(key[1..], t);
        var i: nat :| i > 0 && StandsAt(key[1..], t, i);
        Shifted(key, t, i + 1);
      }
    }
  }

  // ---- One operation

  predicate IsDestructive(p: Policy, op: Operation) {
    op.destructive || exists t :: t in Split(op.key) && t in p.destructive
  }

  predicate IsProhibited(p: Policy, op: Operation) {
    op.key in p.prohibited || op.band == Prohibited
  }

  /** Something about the operation or the request calls for a person. */
  predicate Governed(p: Policy, c: Context, op: Operation) {
    IsDestructive(p, op) || c.tier0 || c.contradictions != {} || c.confidence < p.minimumConfidence
  }

  function BandOf(p: Policy, c: Context, op: Operation): Band {
    if IsProhibited(p, op) then Prohibited
    else if op.band != Read && Governed(p, c, op) then Escalate
    else op.band
  }

  function If(b: bool, code: Code): seq<Code> {
    if b then [code] else []
  }

  function CodesOf(p: Policy, c: Context, op: Operation): seq<Code> {
    if IsProhibited(p, op) then [OperationProhibited]
    else if op.band != Read && Governed(p, c, op) then
      If(IsDestructive(p, op), DestructiveOperation) + If(c.tier0, Tier0ApprovalRequired)
      + If(c.contradictions != {}, UnresolvedContradiction)
        + If(c.confidence < p.minimumConfidence, LowContextConfidence)
    else if op.band == Escalate then [ExplicitEscalation]
    else if op.band == Conditional then [ConditionalOperation]
    else []
  }

  function RowOf(p: Policy, c: Context, op: Operation): Row {
    Row(op.key, BandOf(p, c, op), IsDestructive(p, op), CodesOf(p, c, op))
  }

  function Rank(v: Verdict): nat {
    match v
    case Allow => 0
    case Constrain => 1
    case Defer => 2
    case Deny => 3
  }

  /** What a row of this band asks of the verdict. */
  function Calls(b: Band): Verdict {
    match b
    case Read => Allow
    case Execute => Allow
    case Conditional => Constrain
    case Escalate => Defer
    case Prohibited => Deny
  }

  /** A verdict meets a set of rows: nothing in them, and no missing evidence, calls for a stricter one. */
  predicate Meets(v: Verdict, rows: seq<Row>, evidence: set<Id>) {
    && (forall r :: r in rows ==> Rank(Calls(r.band)) <= Rank(v))
    && (evidence == {} && (exists r :: r in rows && r.band != Read) ==> Rank(v) >= Rank(Constrain))
  }

  /** The verdict of an envelope: the mildest one that meets every row and the evidence rule. */
  predicate Decides(v: Verdict, rows: seq<Row>, evidence: set<Id>) {
    Meets(v, rows, evidence) && forall w :: Meets(w, rows, evidence) ==> Rank(v) <= Rank(w)
  }

  lemma DecidesOnce(v: Verdict, w: Verdict, rows: seq<Row>, evidence: set<Id>)
    requires Decides(v, rows, evidence) && Decides(w, rows, evidence)
    ensures v == w
  {
    assert Meets(v, rows, evidence) && Meets(w, rows, evidence);
  }

  function Rows(p: Policy, c: Context, ops: seq<Operation>): (rows: seq<Row>) {
    seq(|ops|, i requires 0 <= i < |ops| => RowOf(p, c, ops[i]))
  }

  /** The verdict while the loop runs, before the evidence rule: the strictest call so far. */
  predicate Strictest(v: Verdict, rows: seq<Row>) {
    && (forall r :: r in rows ==> Rank(Calls(r.band)) <= Rank(v))
    && (v != Allow ==> exists r :: r in rows && Calls(r.band) == v)
  }

  method HasToken(key: string, tokens: set<string>) returns (found: bool)
    ensures found <==> exists t :: t in Split(key) && t in tokens
  {
    var pieces := Split(key);
    for i := 0 to |pieces|
      invariant forall k :: 0 <= k < i ==> pieces[k] !in tokens
    {
      if pieces[i] in tokens { return true; }
    }
    return false;
  }

  method EscalationCodes(p: Policy, c: Context, destructive: bool) returns (codes: seq<Code>)
    ensures codes == If(destructive, DestructiveOperation) + If(c.tier0, Tier0ApprovalRequired)
                     + If(c.contradictions != {}, UnresolvedContradiction)
                     + If(c.confidence < p.minimumConfidence, LowContextConfidence)
  {
    codes := [];
    if destructive { codes := codes + [DestructiveOperation]; }
    if c.tier0 { codes := codes + [Tier0ApprovalRequired]; }
    if c.contradictions != {} { codes := codes + [UnresolvedContradiction]; }
    if c.confidence < p.minimumConfidence { codes := codes + [LowContextConfidence]; }
  }

  method CompileOperation(p: Policy, c: Context, op: Operation, before: Verdict) returns (row: Row, verdict: Verdict)
    ensures row == RowOf(p, c, op)
    ensures verdict == if Rank(before) < Rank(Calls(row.band)) then Calls(row.band) else before
  {
    var token := HasToken(op.key, p.destructive);
    var destructive := op.destructive || token;
    var band, codes := op.band, [];
    verdict := before;
    if op.key in p.prohibited || band == Prohibited {
      band, codes := Prohibited, [OperationProhibited];
      verdict := Deny;
    } else if band != Read
           && (destructive || c.tier0 || c.contradictions != {} || c.confidence < p.minimumConfidence) {
      band := Escalate;
      codes := EscalationCodes(p, c, destructive);
      if Rank(verdict) < Rank(Defer) { verdict := Defer; }
    } else if band == Escalate {
      codes := [ExplicitEscalation];
      if Rank(verdict) < Rank(Defer) { verdict := Defer; }
    } else if band == Conditional {
      codes := [ConditionalOperation];
      if Rank(verdict) < Rank(Constrain) { verdict := Constrain; }
    }
    row := Row(op.key, band, destructive, codes);
  }

  /** Compiling an envelope: one pass over the operations, then the evidence rule. */
  method Compile(p: Policy, c: Context, ops: seq<Operation>) returns (rows: seq<Row>, verdict: Verdict)
    ensures rows == Rows(p, c, ops)
    ensures Decides(verdict, rows, c.evidence)
  {
    rows, verdict := [], Allow;
    for i := 0 to |ops|
      invariant rows == Rows(p, c, ops[..i])
      invariant Strictest(verdict, rows)
    {
      var row, next := CompileOperation(p, c, ops[i], verdict);
      StrictestNext(verdict, rows, row);
      rows, verdict := rows + [row], next;
    }
    assert ops[..|ops|] == ops;
    ghost var strictest := verdict;
    if c.evidence == {} && verdict == Allow && exists r :: r in rows && r.band != Read {
      verdict := Constrain;
    }
    StrictestDecides(strictest, rows, c.evidence);
  }

  lemma StrictestNext(v: Verdict, rows: seq<Row>, row: Row)
    requires Strictest(v, rows)
    ensures Strictest(if Rank(v) < Rank(Calls(row.band)) then Calls(row.band) else v, rows + [row])
  {
    assert (rows + [row])[|rows|] == row;
    assert forall r :: r in rows ==> r in rows + [row];
  }

  lemma StrictestDecides(v: Verdict, rows: seq<Row>, evidence: set<Id>)
    requires Strictest(v, rows)
    ensures Decides(if evidence == {} && v == Allow && (exists r :: r in rows && r.band != Read) then Constrain else v,
                    rows, evidence)
  {}

  // ---- The verdict is order-free and monotone

  ghost predicate SameOperations(ops: seq<Operation>, ops': seq<Operation>) {
    forall op :: op in ops <==> op in ops'
  }

  lemma RowsMembers(p: Policy, c: Context, ops: seq<Operation>, r: Row)
    ensures r in Rows(p, c, ops) <==> exists op :: op in ops && RowOf(p, c, op) == r
  {
    var rows := Rows(p, c, ops);
    if r in rows {
      var i :| 0 <= i < |rows| && rows[i] == r;
      assert ops[i] in ops;
    }
    if exists op :: op in ops && RowOf(p, c, op) == r {
      var op :| op in ops && RowOf(p, c, op) == r;
      var i :| 0 <= i < |ops| && ops[i] == op;
      assert rows[i] == r;
    }
  }

  /** The verdict depends on which operations are asked for, not on their order or repetition. */
  lemma VerdictIsOrderFree(p: Policy, c: Context, ops: seq<Operation>, ops': seq<Operation>, v: Verdict)
    requires SameOperations(ops, ops')
    ensures Decides(v, Rows(p, c, ops), c.evidence) <==> Decides(v, Rows(p, c, ops'), c.evidence)
  {
    forall r ensures r in Rows(p, c, ops) <==> r in Rows(p, c, ops') {
      RowsMembers(p, c, ops, r);
      RowsMembers(p, c, ops', r);
    }
  }

  /** A context no better than another: more contradictions, a tier-0 risk, less confidence or less evidence. */
  predicate NoBetter(c': Context, c: Context) {
    && (c.tier0 ==> c'.tier0) && c.contradictions <= c'.contradictions && c'.confidence <= c.confidence
    && c'.evidence <= c.evidence
  }

  predicate NoSafer(op': Operation, op: Operation) {
    op'.key == op.key && op'.band == op.band && (op.destructive ==> op'.destructive)
  }

  function Severity(b: Band): nat {
    match b
    case Read => 0
    case Execute => 1
    case Conditional => 2
    case Escalate => 3
    case Prohibited => 4
  }

  lemma BandNeverRelaxes(p: Policy, c: Context, c': Context, op: Operation, op': Operation)
    requires NoBetter(c', c) && NoSafer(op', op)
    ensures Severity(BandOf(p, c, op)) <= Severity(BandOf(p, c', op'))
    ensures BandOf(p, c, op) == Read <==> BandOf(p, c', op') == Read
  {
    assert Split(op'.key) == Split(op.key);
    if IsDestructive(p, op) { assert IsDestructive(p, op'); }
  }

  /**
   * Worse news never relaxes an envelope: with more contradictions, tier-0 risk, less confidence, less evidence, more
   * operations or operations marked destructive, no band gets milder and neither does the verdict.
   */
  lemma VerdictNeverRelaxes(p: Policy, c: Context, c': Context, ops: seq<Operation>, ops': seq<Operation>, v: Verdict,
                            v': Verdict)
    requires NoBetter(c', c) && |ops| <= |ops'| && forall i :: 0 <= i < |ops| ==> NoSafer(ops'[i], ops[i])
    requires Decides(v, Rows(p, c, ops), c.evidence) && Decides(v', Rows(p, c', ops'), c'.evidence)
    ensures Rank(v) <= Rank(v')
    ensures forall i :: 0 <= i < |ops| ==> Severity(Rows(p, c, ops)[i].band) <= Severity(Rows(p, c', ops')[i].band)
  {
    var rows, rows' := Rows(p, c, ops), Rows(p, c', ops');
    forall i | 0 <= i < |ops|
      ensures Severity(rows[i].band) <= Severity(rows'[i].band) && (rows[i].band != Read ==> rows'[i].band != Read)
    {
      BandNeverRelaxes(p, c, c', ops[i], ops'[i]);
    }
    assert Meets(v', rows, c.evidence) by {
      forall r | r in rows ensures Rank(Calls(r.band)) <= Rank(v')
             && (r.band != Read ==> exists r' :: r' in rows' && r'.band != Read) {
        var i :| 0 <= i < |rows| && rows[i] == r;
        assert rows'[i] in rows';
        MilderCalls(rows[i].band, rows'[i].band);
      }
    }
  }

  lemma MilderCalls(b: Band, b': Band)
    requires Severity(b) <= Severity(b')
    ensures Rank(Calls(b)) <= Rank(Calls(b'))
  {}

  // ---- What the rows hand to the authorization stage

  /** A row names a reason exactly when its band asks for more than ALLOW; an escalated one therefore always does. */
  lemma EscalationNamesAReason(p: Policy, c: Context, op: Operation)
    ensures CodesOf(p, c, op) != [] <==> Calls(BandOf(p, c, op)) != Allow
  {}

  /**
   * An envelope is compiled to ALLOW exactly when no operation was given a reason and evidence is at hand for whatever
   * is more than a read.
   */
  lemma AllowNamesNoReason(p: Policy, c: Context, ops: seq<Operation>, v: Verdict)
    requires Decides(v, Rows(p, c, ops), c.evidence)
    ensures v == Allow <==> (forall r :: r in Rows(p, c, ops) ==> r.codes == [])
                            && (c.evidence != {} || forall r :: r in Rows(p, c, ops) ==> r.band == Read)
  {
    var rows := Rows(p, c, ops);
    forall r | r in rows ensures r.codes != [] <==> Calls(r.band) != Allow {
      var i :| 0 <= i < |rows| && rows[i] == r;
      EscalationNamesAReason(p, c, ops[i]);
    }
    if (forall r :: r in rows ==> r.codes == []) && (c.evidence != {} || forall r :: r in rows ==> r.band == Read) {
      assert Meets(Allow, rows, c.evidence);
    }
  }

  // ---- Each cause on its own

  /** A token stands in the key between dots, colons or the ends. */
  ghost predicate HasPiece(key: string, t: string) {
    exists i: nat, j: nat :: i <= j <= |key| && key[i..j] == t && (forall k :: i <= k < j ==> key[k] !in ".:")
                             && (i == 0 || key[i - 1] in ".:") && (j == |key| || key[j] in ".:")
  }

  lemma PiecesAreTokens(key: string, t: string)
    ensures t in Split(key) <==> HasPiece(key, t)
  {
    SeparatorsAre();
    TokensStandInKey(key, t);
    if i: nat :| StandsAt(key, t, i) {
      var j := i + |t|;
      forall k | i <= k < j ensures key[k] !in ".:" { assert key[i..j][k - i] == t[k - i]; }
      assert key[i..j] == t;
    }
    if i: nat, j: nat :| i <= j <= |key| && key[i..j] == t && (forall k :: i <= k < j ==> key[k] !in ".:")
                         && (i == 0 || key[i - 1] in ".:") && (j == |key| || key[j] in ".:") {
      forall k | 0 <= k < |t| ensures !Separator(t[k]) { assert t[k] == key[i + k]; }
      assert StandsAt(key, t, i);
    }
  }

  lemma SeparatorsAre()
    ensures forall c :: Separator(c) <==> c in ".:"
  {
    assert ".:"[0] == '.' && ".:"[1] == ':';
  }

  ghost predicate Destructive(p: Policy, op: Operation) {
    op.destructive || exists t :: t in p.destructive && HasPiece(op.key, t)
  }

  lemma DestructiveReads(p: Policy, op: Operation)
    ensures IsDestructive(p, op) <==> Destructive(p, op)
  {
    forall t ensures t in Split(op.key) <==> HasPiece(op.key, t) { PiecesAreTokens(op.key, t); }
  }

  /** What makes the desk ask a person, whatever band was requested. */
  ghost predicate CallsForPerson(p: Policy, c: Context, op: Operation) {
    c.confidence < p.minimumConfidence || c.tier0 || c.contradictions != {} || Destructive(p, op)
  }

  /**
   * The band of a compiled operation: prohibited by the policy or the request; else a read stays a read; else low
   * confidence, a tier-0 request, a contradiction or a destructive operation, each alone, escalates it; and nothing
   * else changes it.
   */
  lemma BandsAreExact(p: Policy, c: Context, ops: seq<Operation>, i: nat)
    requires i < |ops|
    ensures var op, row := ops[i], Rows(p, c, ops)[i];
            && row.key == op.key && (row.destructive <==> Destructive(p, op))
            && (row.band == Prohibited <==> op.key in p.prohibited || op.band == Prohibited)
            && (row.band == Read <==> op.key !in p.prohibited && op.band == Read)
            && (row.band == Escalate
                <==> op.key !in p.prohibited && op.band != Prohibited && op.band != Read
                     && (op.band == Escalate || CallsForPerson(p, c, op)))
            && (row.band == Execute <==> op.key !in p.prohibited && op.band == Execute && !CallsForPerson(p, c, op))
  {
    DestructiveReads(p, ops[i]);
  }

  /** And the reasons given: each names what was so, and all that was so is named. */
  lemma CodesAreExact(p: Policy, c: Context, ops: seq<Operation>, i: nat)
    requires i < |ops|
    ensures var op, row := ops[i], Rows(p, c, ops)[i];
            var asked := row.band == Escalate && CallsForPerson(p, c, op);
            && (OperationProhibited in row.codes <==> row.band == Prohibited)
            && (DestructiveOperation in row.codes <==> asked && Destructive(p, op))
            && (Tier0ApprovalRequired in row.codes <==> asked && c.tier0)
            && (UnresolvedContradiction in row.codes <==> asked && c.contradictions != {})
            && (LowContextConfidence in row.codes <==> asked && c.confidence < p.minimumConfidence)
            && (ExplicitEscalation in row.codes <==> row.band == Escalate && !asked)
            && (ConditionalOperation in row.codes <==> row.band == Conditional)
  {
    DestructiveReads(p, ops[i]);
  }

  predicate Holds(rows: seq<Row>, band: Band) {
    exists r :: r in rows && r.band == band
  }

  predicate Unbacked(rows: seq<Row>, evidence: set<Id>) {
    evidence == {} && exists r :: r in rows && r.band != Read
  }

  /** Which rows each verdict meets. */
  lemma MeetsReads(rows: seq<Row>, evidence: set<Id>)
    ensures Meets(Deny, rows, evidence)
    ensures Meets(Defer, rows, evidence) <==> !Holds(rows, Prohibited)
    ensures Meets(Constrain, rows, evidence) <==> !Holds(rows, Prohibited) && !Holds(rows, Escalate)
    ensures Meets(Allow, rows, evidence)
            <==> !Holds(rows, Prohibited) && !Holds(rows, Escalate) && !Holds(rows, Conditional)
                 && !Unbacked(rows, evidence)
  {
  }

  lemma DecidesReads(rows: seq<Row>, evidence: set<Id>, v: Verdict)
    requires Decides(v, rows, evidence)
    ensures Meets(v, rows, evidence)
    ensures v == Allow <==> Meets(Allow, rows, evidence)
    ensures v == Constrain ==> !Meets(Allow, rows, evidence)
    ensures v == Defer ==> !Meets(Constrain, rows, evidence)
    ensures v == Deny ==> !Meets(Defer, rows, evidence)
  {
  }

  /** The verdict in the same terms. */
  lemma VerdictIsExact(p: Policy, c: Context, ops: seq<Operation>, v: Verdict)
    requires Decides(v, Rows(p, c, ops), c.evidence)
    ensures var rows := Rows(p, c, ops);
            && (v == Deny <==> exists r :: r in rows && r.band == Prohibited)
            && (v == Defer <==> v != Deny && exists r :: r in rows && r.band == Escalate)
            && (v == Constrain
                <==> v != Deny && v != Defer
                     && ((exists r :: r in rows && r.band == Conditional)
                         || (c.evidence == {} && exists r :: r in rows && r.band != Read)))
  {
    var rows := Rows(p, c, ops);
    MeetsReads(rows, c.evidence);
    DecidesReads(rows, c.evidence, v);
  }
}
