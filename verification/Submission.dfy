// Idempotent submission: rows keyed by an idempotency key and by the fingerprint of their content.

module Submission {
  import opened Ordering

  type Fingerprint = string

  /** A stored row; its id is its position, and later rows are newer. */
  datatype Row = Row(key: string, fingerprint: Fingerprint)
  datatype Table = Table(rows: seq<Row>, parts: set<Fingerprint>)

  /** A request with the fingerprints of its parts: a change set stores its mutations, the others have none. */
  datatype Request = Request(key: string, fingerprint: Fingerprint, parts: set<Fingerprint>)

  datatype Response = Created(id: nat) | Replayed(id: nat) | KeyReused | PartTaken

  /** Which of two matching rows a lookup prefers: the one with the key, or the newest. */
  datatype Preference = KeyFirst | NewestFirst

  predicate Matches(row: Row, q: Request) {
    row.key == q.key || row.fingerprint == q.fingerprint
  }

  /** The newest row that satisfies a test. */
  function Newest(rows: seq<Row>, test: Row -> bool): (found: Option<nat>)
    ensures found.Some? ==> found.value < |rows| && test(rows[found.value])
                            && forall j :: found.value < j < |rows| ==> !test(rows[j])
    ensures found.None? ==> forall j :: 0 <= j < |rows| ==> !test(rows[j])
    decreases |rows|
  {
    if rows == [] then None
    else if test(rows[|rows| - 1]) then Some(|rows| - 1)
    else
      var front := rows[..|rows| - 1];
      assert forall j :: 0 <= j < |front| ==> front[j] == rows[j];
      Newest(front, test)
  }

  function Lookup(how: Preference, rows: seq<Row>, q: Request): (found: Option<nat>)
    ensures found.Some? ==> found.value < |rows| && Matches(rows[found.value], q)
    ensures found.None? <==> forall j :: 0 <= j < |rows| ==> !Matches(rows[j], q)
  {
    var byKey := Newest(rows, (row: Row) => row.key == q.key);
    if how.KeyFirst? && byKey.Some? then byKey
    else
      var any := Newest(rows, row => Matches(row, q));
      assert any.None? ==> forall j :: 0 <= j < |rows| ==> !Matches(rows[j], q);
      assert any.Some? ==> Matches(rows[any.value], q);
      any
  }

  function Answer(how: Preference, t: Table, q: Request): Response {
    var found := Lookup(how, t.rows, q);
    if found.Some? then
      if t.rows[found.value].fingerprint != q.fingerprint then KeyReused else Replayed(found.value)
    else if q.parts * t.parts != {} then PartTaken
    else Created(|t.rows|)
  }

  /** A refused insert rolls back, so only a created row is left behind. */
  function Submit(how: Preference, t: Table, q: Request): Table {
    if Answer(how, t, q).Created? then Table(t.rows + [Row(q.key, q.fingerprint)], t.parts + q.parts) else t
  }

  const EMPTY := Table([], {})

  function Exec(how: Preference, t: Table, qs: seq<Request>): Table
    decreases |qs|
  {
    if qs == [] then t else Submit(how, Exec(how, t, qs[..|qs| - 1]), qs[|qs| - 1])
  }

  predicate Successful(r: Response) {
    r.Created? || r.Replayed?
  }

  // ---- Both keys stay unique

  predicate Unique(rows: seq<Row>) {
    forall i, j :: 0 <= i < j < |rows| ==> rows[i].key != rows[j].key && rows[i].fingerprint != rows[j].fingerprint
  }

  lemma {:induction false} RunsStayUnique(how: Preference, t: Table, qs: seq<Request>)
    requires Unique(t.rows)
    ensures Unique(Exec(how, t, qs).rows) && t.rows <= Exec(how, t, qs).rows && t.parts <= Exec(how, t, qs).parts
    decreases |qs|
  {
    if qs != [] {
      RunsStayUnique(how, t, qs[..|qs| - 1]);
    }
  }

  lemma UniqueFingerprint(rows: seq<Row>, i: nat, j: nat)
    requires Unique(rows) && i < |rows| && j < |rows| && rows[i].fingerprint == rows[j].fingerprint
    ensures i == j
  {}

  lemma UniqueKey(rows: seq<Row>, i: nat, j: nat)
    requires Unique(rows) && i < |rows| && j < |rows| && rows[i].key == rows[j].key
    ensures i == j
  {}

  // ---- A success is about the request's own content

  /** What a successful response points at after it was given: a row with the request's fingerprint. */
  lemma SuccessCarriesContent(how: Preference, t: Table, q: Request)
    requires Successful(Answer(how, t, q))
    ensures var t', id := Submit(how, t, q), Answer(how, t, q).id;
            id < |t'.rows| && t'.rows[id].fingerprint == q.fingerprint
  {}

  function Responses(how: Preference, qs: seq<Request>): (rs: seq<Response>)
    ensures |rs| == |qs|
  {
    seq(|qs|, i requires 0 <= i < |qs| => Answer(how, Exec(how, EMPTY, qs[..i]), qs[i]))
  }

  lemma {:induction false} ExecSplits(how: Preference, t: Table, qs: seq<Request>, n: nat)
    requires n <= |qs|
    ensures Exec(how, t, qs) == Exec(how, Exec(how, t, qs[..n]), qs[n..])
    decreases |qs|
  {
    if n == |qs| {
      assert qs[..n] == qs && qs[n..] == [];
    } else {
      var front := qs[..|qs| - 1];
      ExecSplits(how, t, front, n);
      assert front[..n] == qs[..n] && qs[n..][..|qs| - n - 1] == front[n..];
    }
  }

  /** The row a response points at is in the final table, with the content asked for. */
  lemma SuccessLasts(how: Preference, qs: seq<Request>, i: nat)
    requires i < |qs| && Successful(Responses(how, qs)[i])
    ensures var rows, id := Exec(how, EMPTY, qs).rows, Responses(how, qs)[i].id;
            id < |rows| && rows[id].fingerprint == qs[i].fingerprint
  {
    var t := Exec(how, EMPTY, qs[..i]);
    SuccessCarriesContent(how, t, qs[i]);
    assert qs[..i + 1][..i] == qs[..i];
    assert Exec(how, EMPTY, qs[..i + 1]) == Submit(how, t, qs[i]);
    ExecSplits(how, EMPTY, qs, i + 1);
    RunsStayUnique(how, EMPTY, qs[..i + 1]);
    RunsStayUnique(how, Exec(how, EMPTY, qs[..i + 1]), qs[i + 1..]);
  }

  /** Over any run, under either preference, two successes return one id exactly when they asked for one content. */
  lemma IdsAreContents(how: Preference, qs: seq<Request>, i: nat, j: nat)
    requires i < |qs| && j < |qs| && Successful(Responses(how, qs)[i]) && Successful(Responses(how, qs)[j])
    ensures Responses(how, qs)[i].id == Responses(how, qs)[j].id <==> qs[i].fingerprint == qs[j].fingerprint
  {
    SuccessLasts(how, qs, i);
    SuccessLasts(how, qs, j);
    RunsStayUnique(how, EMPTY, qs);
    if qs[i].fingerprint == qs[j].fingerprint {
      UniqueFingerprint(Exec(how, EMPTY, qs).rows, Responses(how, qs)[i].id, Responses(how, qs)[j].id);
    }
  }

  // ---- Keys

  predicate Bound(t: Table, key: string) {
    exists i :: 0 <= i < |t.rows| && t.rows[i].key == key
  }

  /**
   * Reuse of a key for other content is refused exactly when the lookup lands on the key's row: always when the key is
   * preferred, but when the newest match is preferred only if no newer row holds the requested content.
   */
  lemma ReuseIsRefusedExactly(how: Preference, t: Table, q: Request)
    requires Unique(t.rows)
    ensures Answer(how, t, q) == KeyReused
            <==> exists i :: 0 <= i < |t.rows| && t.rows[i].key == q.key && t.rows[i].fingerprint != q.fingerprint
                             && (how.NewestFirst? ==>
                                   forall j :: i < j < |t.rows| ==> t.rows[j].fingerprint != q.fingerprint)
  {
    var found := Lookup(how, t.rows, q);
    if i :| 0 <= i < |t.rows| && t.rows[i].key == q.key && t.rows[i].fingerprint != q.fingerprint
            && (how.NewestFirst? ==> forall j :: i < j < |t.rows| ==> t.rows[j].fingerprint != q.fingerprint) {
      KeyIsFound(how, t.rows, q, i);
    }
    if Answer(how, t, q) == KeyReused && how.NewestFirst? {
      NoneNewer(t.rows, q, found.value);
    }
  }

  lemma KeyIsFound(how: Preference, rows: seq<Row>, q: Request, i: nat)
    requires Unique(rows) && i < |rows| && rows[i].key == q.key
    requires how.NewestFirst? ==> forall j :: i < j < |rows| ==> rows[j].fingerprint != q.fingerprint
    ensures Lookup(how, rows, q) == Some(i)
  {
    var byKey := Newest(rows, (row: Row) => row.key == q.key);
    assert byKey.Some?;
    UniqueKey(rows, byKey.value, i);
    if how.NewestFirst? {
      var any := Newest(rows, row => Matches(row, q));
      assert Matches(rows[i], q);
      forall j | i < j < |rows| ensures !Matches(rows[j], q) {
        assert rows[i].key != rows[j].key;
      }
    }
  }

  // ---- When a success can be repeated

  ghost predicate AlwaysRepeats(how: Preference, t: Table, q: Request, id: nat) {
    forall later: seq<Request> :: Answer(how, Exec(how, t, later), q) == Replayed(id)
  }

  lemma BoundSuccessRepeats(how: Preference, t: Table, q: Request, later: seq<Request>)
    requires Unique(t.rows) && Answer(how, t, q).Replayed? && Bound(t, q.key)
    ensures Answer(how, Exec(how, t, later), q) == Answer(how, t, q)
  {
    var t', id := Exec(how, t, later), Answer(how, t, q).id;
    RunsStayUnique(how, t, later);
    var k :| 0 <= k < |t.rows| && t.rows[k].key == q.key;
    assert t'.rows[k] == t.rows[k] && t'.rows[id] == t.rows[id];
    assert t'.rows[id].fingerprint == q.fingerprint;
    if how.KeyFirst? {
      KeyIsFound(how, t.rows, q, k);
      KeyIsFound(how, t'.rows, q, k);
    } else {
      NoneNewer(t.rows, q, id);
      assert Matches(t.rows[k], q);
      NewestStays(t'.rows, q, k, id);
    }
  }

  lemma NoneNewer(rows: seq<Row>, q: Request, i: nat)
    requires Lookup(NewestFirst, rows, q) == Some(i)
    ensures forall j :: i < j < |rows| ==> !Matches(rows[j], q)
  {
    var any := Newest(rows, row => Matches(row, q));
  }

  lemma NewestStays(rows: seq<Row>, q: Request, k: nat, id: nat)
    requires Unique(rows) && k <= id < |rows| && rows[k].key == q.key && rows[id].fingerprint == q.fingerprint
    ensures Lookup(NewestFirst, rows, q) == Some(id)
  {
    var any := Newest(rows, row => Matches(row, q));
    assert Matches(rows[id], q);
    forall j | id < j < |rows| ensures !Matches(rows[j], q) {
      assert rows[k].key != rows[j].key && rows[id].fingerprint != rows[j].fingerprint;
    }
  }

  /** A fingerprint the table does not hold. */
  function Unused(rows: seq<Row>): (f: Fingerprint)
    ensures forall i :: 0 <= i < |rows| ==> |rows[i].fingerprint| < |f|
    decreases |rows|
  {
    if rows == [] then "x"
    else
      var rest, last := Unused(rows[..|rows| - 1]), rows[|rows| - 1].fingerprint;
      assert forall i :: 0 <= i < |rows| - 1 ==> rows[..|rows| - 1][i] == rows[i];
      rest + last + "x"
  }

  /** A part longer than every stored one. */
  lemma FreshPart(parts: set<Fingerprint>) returns (f: Fingerprint)
    ensures forall x :: x in parts ==> |x| < |f|
    decreases |parts|
  {
    if parts == {} {
      f := "x";
    } else {
      var x :| x in parts;
      var g := FreshPart(parts - {x});
      f := g + x + "x";
      forall y | y in parts ensures |y| < |f| {
        if y != x { assert y in parts - {x}; }
      }
    }
  }

  /** An unbound key can still be taken by other content, and then the request that succeeded is refused. */
  lemma UnboundSuccessCanBeLost(how: Preference, t: Table, q: Request) returns (thief: Request)
    requires Unique(t.rows) && Answer(how, t, q).Replayed? && !Bound(t, q.key)
    ensures thief.parts != {} && Answer(how, Exec(how, t, [thief]), q) == KeyReused
  {
    var id := Answer(how, t, q).id;
    var part := FreshPart(t.parts);
    thief := Request(q.key, Unused(t.rows), {part});
    assert forall j :: 0 <= j < |t.rows| ==> !Matches(t.rows[j], thief);
    assert [thief][..0] == [];
    var t' := Submit(how, t, thief);
    assert Exec(how, t, [thief]) == t';
    RunsStayUnique(how, t, [thief]);
    assert t'.rows[|t.rows|] == Row(q.key, thief.fingerprint) && |thief.fingerprint| > |t.rows[id].fingerprint|;
    KeyIsFound(how, t'.rows, q, |t.rows|);
  }

  /**
   * A replayed request succeeds with the same id in every future exactly when its key is stored somewhere: a replay
   * found by content alone does not bind the key it came with.
   */
  lemma RepeatsExactlyWhenBound(how: Preference, t: Table, q: Request)
    requires Unique(t.rows) && Answer(how, t, q).Replayed?
    ensures AlwaysRepeats(how, t, q, Answer(how, t, q).id) <==> Bound(t, q.key)
  {
    if Bound(t, q.key) {
      forall later: seq<Request> ensures Answer(how, Exec(how, t, later), q) == Replayed(Answer(how, t, q).id) {
        BoundSuccessRepeats(how, t, q, later);
      }
    } else {
      var thief := UnboundSuccessCanBeLost(how, t, q);
    }
  }

  /** What was created is bound by its own key, so the request that created a row can always be repeated. */
  lemma CreationRepeats(how: Preference, t: Table, q: Request, later: seq<Request>)
    requires Unique(t.rows) && Answer(how, t, q).Created?
    ensures Answer(how, Exec(how, Submit(how, t, q), later), q) == Replayed(|t.rows|)
  {
    var t' := Submit(how, t, q);
    assert Unique(t'.rows);
    KeyIsFound(how, t'.rows, q, |t.rows|);
    assert t'.rows[|t.rows|].key == q.key;
    BoundSuccessRepeats(how, t', q, later);
  }

  // ---- Parts are never shared

  /** Request `i` of the run created a row. */
  predicate Creates(how: Preference, qs: seq<Request>, i: nat) {
    i < |qs| && Responses(how, qs)[i].Created?
  }

  ghost predicate StoresPart(how: Preference, qs: seq<Request>, x: Fingerprint) {
    exists i: nat :: CreatesPart(how, qs, i, x)
  }

  predicate CreatesPart(how: Preference, qs: seq<Request>, i: nat, x: Fingerprint) {
    i < |qs| && Creates(how, qs, i) && x in qs[i].parts
  }

  ghost predicate StoresRow(how: Preference, qs: seq<Request>, row: Row) {
    exists i: nat :: CreatesRow(how, qs, i, row)
  }

  predicate CreatesRow(how: Preference, qs: seq<Request>, i: nat, row: Row) {
    i < |qs| && Creates(how, qs, i) && row == Row(qs[i].key, qs[i].fingerprint)
  }

  lemma ResponsesPrefix(how: Preference, qs: seq<Request>, n: nat, i: nat)
    requires n <= |qs| && i < n
    ensures Responses(how, qs[..n])[i] == Responses(how, qs)[i]
  {
    assert qs[..n][..i] == qs[..i];
  }

  lemma CreatesPrefix(how: Preference, qs: seq<Request>, n: nat)
    requires n <= |qs|
    ensures forall i: nat :: Creates(how, qs[..n], i) <==> i < n && Creates(how, qs, i)
  {
    forall i: nat | i < n ensures Creates(how, qs[..n], i) <==> Creates(how, qs, i) {
      ResponsesPrefix(how, qs, n, i);
    }
  }

  lemma CreatesPartPrefix(how: Preference, qs: seq<Request>, n: nat, i: nat, x: Fingerprint)
    requires n <= |qs|
    ensures CreatesPart(how, qs[..n], i, x) <==> i < n && CreatesPart(how, qs, i, x)
  {
    CreatesPrefix(how, qs, n);
  }

  lemma StoresPartKept(how: Preference, qs: seq<Request>, n: nat, x: Fingerprint)
    requires n <= |qs| && StoresPart(how, qs[..n], x)
    ensures StoresPart(how, qs, x)
  {
    var i: nat :| CreatesPart(how, qs[..n], i, x);
    CreatesPartPrefix(how, qs, n, i, x);
  }

  lemma StoresPartBack(how: Preference, qs: seq<Request>, n: nat, x: Fingerprint)
    requires n + 1 == |qs| && StoresPart(how, qs, x) && !CreatesPart(how, qs, n, x)
    ensures StoresPart(how, qs[..n], x)
  {
    var i: nat :| CreatesPart(how, qs, i, x);
    CreatesPartPrefix(how, qs, n, i, x);
  }

  lemma StoresPartNext(how: Preference, qs: seq<Request>, x: Fingerprint)
    requires qs != []
    ensures var n := |qs| - 1; StoresPart(how, qs, x) <==> StoresPart(how, qs[..n], x) || CreatesPart(how, qs, n, x)
  {
    var n := |qs| - 1;
    if StoresPart(how, qs[..n], x) {
      StoresPartKept(how, qs, n, x);
    } else if StoresPart(how, qs, x) && !CreatesPart(how, qs, n, x) {
      StoresPartBack(how, qs, n, x);
    }
  }

  lemma CreatesRowPrefix(how: Preference, qs: seq<Request>, n: nat, i: nat, row: Row)
    requires n <= |qs|
    ensures CreatesRow(how, qs[..n], i, row) <==> i < n && CreatesRow(how, qs, i, row)
  {
    CreatesPrefix(how, qs, n);
  }

  lemma StoresRowKept(how: Preference, qs: seq<Request>, n: nat, row: Row)
    requires n <= |qs| && StoresRow(how, qs[..n], row)
    ensures StoresRow(how, qs, row)
  {
    var i: nat :| CreatesRow(how, qs[..n], i, row);
    CreatesRowPrefix(how, qs, n, i, row);
  }

  lemma StoresRowBack(how: Preference, qs: seq<Request>, n: nat, row: Row)
    requires n + 1 == |qs| && StoresRow(how, qs, row) && !CreatesRow(how, qs, n, row)
    ensures StoresRow(how, qs[..n], row)
  {
    var i: nat :| CreatesRow(how, qs, i, row);
    CreatesRowPrefix(how, qs, n, i, row);
  }

  lemma StoresRowNext(how: Preference, qs: seq<Request>, row: Row)
    requires qs != []
    ensures var n := |qs| - 1; StoresRow(how, qs, row) <==> StoresRow(how, qs[..n], row) || CreatesRow(how, qs, n, row)
  {
    var n := |qs| - 1;
    if StoresRow(how, qs[..n], row) {
      StoresRowKept(how, qs, n, row);
    } else if StoresRow(how, qs, row) && !CreatesRow(how, qs, n, row) {
      StoresRowBack(how, qs, n, row);
    }
  }

  /** The stored parts of a run are the parts of the requests it created, and nothing else. */
  lemma {:induction false} PartsAreCreated(how: Preference, qs: seq<Request>, x: Fingerprint)
    ensures x in Exec(how, EMPTY, qs).parts <==> StoresPart(how, qs, x)
    decreases |qs|
  {
    if qs != [] {
      PartsAreCreated(how, qs[..|qs| - 1], x);
      StoresPartNext(how, qs, x);
    }
  }

  lemma {:induction false} RowsAreCreated(how: Preference, qs: seq<Request>, row: Row)
    ensures row in Exec(how, EMPTY, qs).rows <==> StoresRow(how, qs, row)
    decreases |qs|
  {
    if qs != [] {
      RowsAreCreated(how, qs[..|qs| - 1], row);
      StoresRowNext(how, qs, row);
    }
  }

  /** No earlier created request had this key or this content. */
  predicate IsNew(how: Preference, qs: seq<Request>, n: nat)
    requires n < |qs|
  {
    forall i :: 0 <= i < n && Creates(how, qs, i) ==> qs[i].key != qs[n].key && qs[i].fingerprint != qs[n].fingerprint
  }

  /** Some earlier created request had a part in common with this one. */
  predicate SharesPart(how: Preference, qs: seq<Request>, n: nat)
    requires n < |qs|
  {
    exists i :: 0 <= i < n && Creates(how, qs, i) && qs[i].parts * qs[n].parts != {}
  }

  lemma NewMatchesNothing(how: Preference, qs: seq<Request>, n: nat, row: Row)
    requires n < |qs| && IsNew(how, qs, n) && row in Exec(how, EMPTY, qs[..n]).rows
    ensures !Matches(row, qs[n])
  {
    RowsAreCreated(how, qs[..n], row);
    var i: nat :| CreatesRow(how, qs[..n], i, row);
    CreatesRowPrefix(how, qs, n, i, row);
  }

  lemma SharedPartsAreStored(how: Preference, qs: seq<Request>, n: nat)
    requires n < |qs|
    ensures SharesPart(how, qs, n) <==> qs[n].parts * Exec(how, EMPTY, qs[..n]).parts != {}
  {
    var stored := Exec(how, EMPTY, qs[..n]).parts;
    CreatesPrefix(how, qs, n);
    if x :| x in qs[n].parts * stored {
      PartsAreCreated(how, qs[..n], x);
      var i: nat :| CreatesPart(how, qs[..n], i, x);
      assert x in qs[i].parts * qs[n].parts;
    }
    if i :| 0 <= i < n && Creates(how, qs, i) && qs[i].parts * qs[n].parts != {} {
      var x :| x in qs[i].parts * qs[n].parts;
      assert CreatesPart(how, qs[..n], i, x);
      PartsAreCreated(how, qs[..n], x);
      assert x in qs[n].parts * stored;
    }
  }

  /**
   * Over every run, a change set with a new key and new content is refused exactly when some change set created before
   * it has a mutation in common with it, and otherwise created.
   */
  lemma SharedPartIsRefused(how: Preference, qs: seq<Request>, n: nat)
    requires n < |qs| && IsNew(how, qs, n)
    ensures Responses(how, qs)[n] == PartTaken <==> SharesPart(how, qs, n)
    ensures Creates(how, qs, n) <==> !SharesPart(how, qs, n)
  {
    var t := Exec(how, EMPTY, qs[..n]);
    SharedPartsAreStored(how, qs, n);
    forall j | 0 <= j < |t.rows| ensures !Matches(t.rows[j], qs[n]) {
      NewMatchesNothing(how, qs, n, t.rows[j]);
    }
  }

  // ---- The desk

  class Desk {
    const how: Preference
    var rows: seq<Row>
    var parts: set<Fingerprint>

    constructor (how: Preference)
      ensures this.how == how && State() == EMPTY
    {
      this.how := how;
      rows, parts := [], {};
    }

    function State(): Table
      reads this
    {
      Table(rows, parts)
    }

    method Search(test: Row -> bool) returns (found: Option<nat>)
      ensures found == Newest(rows, test)
    {
      var i := |rows|;
      assert rows[..i] == rows;
      while i > 0
        invariant 0 <= i <= |rows| && Newest(rows, test) == Newest(rows[..i], test)
      {
        i := i - 1;
        assert rows[..i + 1][..i] == rows[..i];
        if test(rows[i]) { return Some(i); }
      }
      found := None;
    }

    method Receive(q: Request) returns (response: Response)
      modifies this
      ensures response == Answer(how, old(State()), q)
      ensures State() == Submit(how, old(State()), q)
    {
      var found := None;
      if how.KeyFirst? {
        found := Search((row: Row) => row.key == q.key);
      }
      if found == None {
        found := Search(row => Matches(row, q));
      }
      if found.Some? {
        if rows[found.value].fingerprint != q.fingerprint { return KeyReused; }
        return Replayed(found.value);
      }
      if q.parts * parts != {} { return PartTaken; }
      response := Created(|rows|);
      rows := rows + [Row(q.key, q.fingerprint)];
      parts := parts + q.parts;
    }
  }
}
