/** Sealed journal records: the hashed payload, what a hash determines, and what a verified chain determines. */
module JournalRecords {

  function Zeros(n: nat): (s: string)
    ensures |s| == n && forall i :: 0 <= i < n ==> s[i] == '0'
  {
    if n == 0 then "" else Zeros(n - 1) + "0"
  }

  const GENESIS: string := Zeros(64)
  const CURRENT_VERSION := "mittens-v1.2.0"
  const SEPARATOR := '|'

  /** The digest and the number formats a payload is built with. */
  datatype Codec = Codec(digest: string -> string, decimal: int -> string, sixPlaces: real -> string)

  ghost predicate SeparatorFree(s: string) {
    SEPARATOR !in s
  }

  /** A digest without collisions that never yields the empty or the genesis value, hexadecimal like the latter, and
      number formats that write no separator. */
  ghost predicate Sound(c: Codec) {
    && (forall x, y :: c.digest(x) == c.digest(y) ==> x == y)
    && (forall x :: c.digest(x) != "" && c.digest(x) != GENESIS && SeparatorFree(c.digest(x)))
    && (forall i :: SeparatorFree(c.decimal(i)))
    && (forall i, j :: c.decimal(i) == c.decimal(j) ==> i == j)
    && forall x :: SeparatorFree(c.sixPlaces(x))
  }

  /** The hashed fields of a record; state and action snapshots enter through their own hashes. */
  datatype JournalRecord = JournalRecord(runID: string, epoch: int, batchSeq: int, decisionID: string,
                                         prevRecordHash: string, recordHash: string, runtimeVersion: string,
                                         policyName: string, policyParamHash: string, initialStateHash: string,
                                         actionHash: string, nextStateHash: string, totalNetContribution: real) {

    /** Contributions within 1e-9 of zero count as zero, whatever their sign. */
    function Contribution(): real {
      if -0.000000001 < totalNetContribution < 0.000000001 then 0.0 else totalNetContribution
    }

    /** The fields that are hashed, in the order they are written. */
    function HashedFields(c: Codec): (f: seq<string>)
      ensures |f| == 12 && f[0] == prevRecordHash
    {
      [prevRecordHash, runID, c.decimal(epoch), c.decimal(batchSeq), decisionID, runtimeVersion, policyName,
       policyParamHash, initialStateHash, actionHash, nextStateHash, c.sixPlaces(Contribution())]
    }

    function Payload(c: Codec): string {
      Joined(HashedFields(c))
    }

    function ComputeRecordHash(c: Codec): string {
      c.digest(Payload(c))
    }

    predicate VerifyIntegrity(c: Codec) {
      recordHash != "" && recordHash == ComputeRecordHash(c)
    }

    /** Fill in the defaults and the hash. */
    function Seal(c: Codec): (r: JournalRecord)
      ensures r.prevRecordHash == if prevRecordHash == "" then GENESIS else prevRecordHash
      ensures prevRecordHash == "" ==>
        |r.prevRecordHash| == 64 && forall i :: 0 <= i < 64 ==> r.prevRecordHash[i] == '0'
      ensures r.runtimeVersion == if runtimeVersion == "" then "mittens-v1.2.0" else runtimeVersion
      ensures r.recordHash == r.ComputeRecordHash(c)
      ensures r
         == this.(prevRecordHash := r.prevRecordHash, runtimeVersion := r.runtimeVersion, recordHash := r.recordHash)
    {
      var p := this.(prevRecordHash := if prevRecordHash == "" then GENESIS else prevRecordHash);
      var v := p.(runtimeVersion := if runtimeVersion == "" then CURRENT_VERSION else runtimeVersion);
      v.(recordHash := v.ComputeRecordHash(c))
    }

    /** No text field contains the separator. */
    ghost predicate Plain() {
      && SeparatorFree(prevRecordHash) && PlainFields()
    }

    /** None of the caller's text fields contains the separator. */
    ghost predicate PlainFields() {
      SeparatorFree(runID) && PlainNotes()
    }

    /** None of them except possibly the run's name does. */
    ghost predicate PlainNotes() {
      && SeparatorFree(decisionID) && SeparatorFree(runtimeVersion) && SeparatorFree(policyName)
      && SeparatorFree(policyParamHash) && SeparatorFree(initialStateHash) && SeparatorFree(actionHash)
      && SeparatorFree(nextStateHash)
    }
  }

  function Joined(fields: seq<string>): string {
    if fields == [] then ""
    else if |fields| == 1 then fields[0]
    else fields[0] + [SEPARATOR] + Joined(fields[1..])
  }

  lemma SeparatorNotBefore(a: string, b: string, x: string, y: string)
    requires SeparatorFree(b) && a + [SEPARATOR] + x == b + [SEPARATOR] + y
    ensures |a| >= |b|
  {
    assert (a + [SEPARATOR] + x)[|a|] == SEPARATOR;
    assert forall i :: 0 <= i < |b| ==> (b + [SEPARATOR] + y)[i] == b[i] != SEPARATOR;
  }

  /** Text up to the first separator is determined. */
  lemma FirstFieldDetermined(a: string, b: string, x: string, y: string)
    requires SeparatorFree(a) && SeparatorFree(b) && a + [SEPARATOR] + x == b + [SEPARATOR] + y
    ensures a == b && x == y
  {
    var s := a + [SEPARATOR] + x;
    SeparatorNotBefore(a, b, x, y);
    SeparatorNotBefore(b, a, y, x);
    assert a == s[..|a|] && b == s[..|b|];
    assert x == s[|a| + 1..] && y == s[|b| + 1..];
  }

  ghost predicate AllPlain(fields: seq<string>) {
    forall i :: 0 <= i < |fields| ==> SeparatorFree(fields[i])
  }

  // ---- Counting separators ----

  function Bars(s: string): nat {
    if s == "" then 0 else Bars(s[..|s| - 1]) + (if s[|s| - 1] == SEPARATOR then 1 else 0)
  }

  lemma {:induction false} BarsAdd(a: string, b: string)
    ensures Bars(a + b) == Bars(a) + Bars(b)
  {
    if b == "" {
      assert a + b == a;
    } else {
      BarsAdd(a, b[..|b| - 1]);
      assert (a + b)[..|a + b| - 1] == a + b[..|b| - 1];
    }
  }

  lemma OneBar()
    ensures Bars([SEPARATOR]) == 1
  {
    assert [SEPARATOR][..0] == "";
  }

  lemma {:induction false} NoBars(s: string)
    ensures Bars(s) == 0 <==> SeparatorFree(s)
  {
    if s != "" {
      NoBars(s[..|s| - 1]);
      assert s == s[..|s| - 1] + [s[|s| - 1]];
    }
  }

  function TotalBars(fields: seq<string>): nat {
    if fields == [] then 0 else Bars(fields[0]) + TotalBars(fields[1..])
  }

  lemma {:induction false} NoTotalBars(fields: seq<string>)
    ensures TotalBars(fields) == 0 <==> AllPlain(fields)
  {
    if fields != [] {
      NoBars(fields[0]);
      NoTotalBars(fields[1..]);
      assert AllPlain(fields) <==> SeparatorFree(fields[0]) && AllPlain(fields[1..]) by {
        assert fields == [fields[0]] + fields[1..];
        assert AllPlain(fields) ==> forall i :: 0 <= i < |fields| - 1 ==> SeparatorFree(fields[1..][i]);
      }
    }
  }

  lemma {:induction false} BarsJoined(fields: seq<string>)
    requires fields != []
    ensures Bars(Joined(fields)) == TotalBars(fields) + |fields| - 1
  {
    if |fields| == 1 {
      assert fields[1..] == [];
    } else {
      BarsJoined(fields[1..]);
      BarsAdd(fields[0] + [SEPARATOR], Joined(fields[1..]));
      BarsAdd(fields[0], [SEPARATOR]);
      OneBar();
    }
  }

  /** Two lists of equally many fields with one joined text are both plain or neither is. */
  lemma {:induction false} PlainTogether(f: seq<string>, g: seq<string>)
    requires |f| == |g| > 0 && Joined(f) == Joined(g)
    ensures AllPlain(f) <==> AllPlain(g)
  {
    BarsJoined(f);
    BarsJoined(g);
    NoTotalBars(f);
    NoTotalBars(g);
  }

  lemma {:induction false} JoinedIsInjective(f: seq<string>, g: seq<string>)
    requires |f| == |g| && AllPlain(f) && AllPlain(g) && Joined(f) == Joined(g)
    ensures f == g
  {
    if |f| > 1 {
      FirstFieldDetermined(f[0], g[0], Joined(f[1..]), Joined(g[1..]));
      JoinedIsInjective(f[1..], g[1..]);
      assert f == [f[0]] + f[1..] && g == [g[0]] + g[1..];
    }
  }

  /** The hashed fields, numbers as numbers; the contribution only as far as it is written. */
  ghost predicate SameFields(c: Codec, r: JournalRecord, s: JournalRecord) {
    && r.prevRecordHash == s.prevRecordHash && r.runID == s.runID && r.epoch == s.epoch && r.batchSeq == s.batchSeq
    && r.decisionID == s.decisionID && r.runtimeVersion == s.runtimeVersion && r.policyName == s.policyName
    && r.policyParamHash == s.policyParamHash && r.initialStateHash == s.initialStateHash
    && r.actionHash == s.actionHash && r.nextStateHash == s.nextStateHash
    && c.sixPlaces(r.Contribution()) == c.sixPlaces(s.Contribution())
  }

  lemma FieldsArePlain(c: Codec, r: JournalRecord)
    requires Sound(c)
    ensures AllPlain(r.HashedFields(c)) <==> r.Plain()
  {
    var f := r.HashedFields(c);
    assert f[1] == r.runID && f[4] == r.decisionID && f[5] == r.runtimeVersion && f[6] == r.policyName;
    assert f[7] == r.policyParamHash && f[8] == r.initialStateHash && f[9] == r.actionHash && f[10] == r.nextStateHash;
  }

  lemma ReadBack(c: Codec, r: JournalRecord, s: JournalRecord)
    requires Sound(c) && r.HashedFields(c) == s.HashedFields(c)
    ensures SameFields(c, r, s)
  {
    var f, g := r.HashedFields(c), s.HashedFields(c);
    assert f[2] == g[2] && f[3] == g[3];
    assert f[1] == g[1] && f[4] == g[4] && f[5] == g[5] && f[6] == g[6];
    assert f[7] == g[7] && f[8] == g[8] && f[9] == g[9] && f[10] == g[10] && f[11] == g[11];
  }

  /** A plain record's payload determines its fields: whatever other record has it, plain or not, has the same. */
  lemma PayloadDeterminesFields(c: Codec, r: JournalRecord, s: JournalRecord)
    requires Sound(c) && r.Plain()
    ensures r.Payload(c) == s.Payload(c) <==> SameFields(c, r, s)
  {
    FieldsArePlain(c, r);
    if r.Payload(c) == s.Payload(c) {
      PlainTogether(r.HashedFields(c), s.HashedFields(c));
      JoinedIsInjective(r.HashedFields(c), s.HashedFields(c));
      ReadBack(c, r, s);
    }
    assert SameFields(c, r, s) ==> r.HashedFields(c) == s.HashedFields(c);
  }

  lemma SealedVerifies(c: Codec, r: JournalRecord)
    requires Sound(c)
    ensures r.Seal(c).VerifyIntegrity(c)
  {
    assert r.Seal(c).recordHash == c.digest(r.Seal(c).Payload(c));
  }

  /** Changing any hashed field of an intact plain record into anything at all, and nothing else, is noticed. */
  lemma TamperingIsNoticed(c: Codec, r: JournalRecord, s: JournalRecord)
    requires Sound(c) && r.Plain() && r.VerifyIntegrity(c) && s.recordHash == r.recordHash
    ensures s.VerifyIntegrity(c) <==> SameFields(c, r, s)
  {
    PayloadDeterminesFields(c, r, s);
  }

  // ---- The payload written out ----

  lemma JoinedFields(f: seq<string>, k: nat)
    requires k < |f|
    ensures k + 1 < |f| ==> Joined(f[k..]) == f[k] + [SEPARATOR] + Joined(f[k + 1..])
    ensures k + 1 == |f| ==> Joined(f[k..]) == f[k]
  {
    if k + 1 < |f| {
      assert f[k..][1..] == f[k + 1..];
    }
  }

  /** The amount as it is written: those within 1e-9 of zero as zero, all others as they are. */
  lemma AmountReads(c: Codec, r: JournalRecord)
    ensures r.HashedFields(c)[11] == c.sixPlaces(
      if -0.000000001 < r.totalNetContribution < 0.000000001 then 0.0 else r.totalNetContribution)
  {
  }

  /** Twelve fields, in this order, with a bar between any two. */
  lemma PayloadReads(c: Codec, r: JournalRecord, amount: string)
    requires amount == c.sixPlaces(
      if -0.000000001 < r.totalNetContribution < 0.000000001 then 0.0 else r.totalNetContribution)
    ensures r.Payload(c)
         == r.prevRecordHash + "|" + (r.runID + "|" + (c.decimal(r.epoch) + "|" + (c.decimal(r.batchSeq) + "|"
            + (r.decisionID + "|" + (r.runtimeVersion + "|" + (r.policyName + "|" + (r.policyParamHash + "|"
            + (r.initialStateHash + "|" + (r.actionHash + "|" + (r.nextStateHash + "|" + amount))))))))))
    ensures r.VerifyIntegrity(c) <==> r.recordHash != "" && r.recordHash == c.digest(r.Payload(c))
  {
    var f := r.HashedFields(c);
    AmountReads(c, r);
    JoinedTail(f);
    JoinedHead(f);
  }

  lemma JoinedTail(f: seq<string>)
    requires |f| == 12
    ensures Joined(f[6..])
         == f[6] + "|" + (f[7] + "|" + (f[8] + "|" + (f[9] + "|" + (f[10] + "|" + f[11]))))
  {
    JoinedFields(f, 6);
    JoinedFields(f, 7);
    JoinedFields(f, 8);
    JoinedFields(f, 9);
    JoinedFields(f, 10);
    JoinedFields(f, 11);
  }

  lemma {:induction false} JoinedHead(f: seq<string>)
    requires |f| == 12
    ensures Joined(f)
         == f[0] + "|" + (f[1] + "|" + (f[2] + "|" + (f[3] + "|" + (f[4] + "|" + (f[5] + "|" + Joined(f[6..]))))))
  {
    assert f[0..] == f;
    JoinedFields(f, 0);
    JoinedFields(f, 1);
    JoinedFields(f, 2);
    JoinedFields(f, 3);
    JoinedFields(f, 4);
    JoinedFields(f, 5);
  }

  // ---- The amount ----

  /** The format writes numbers that are at least 1e-6 apart differently, as six decimals do. */
  ghost predicate TellsApart(c: Codec) {
    forall x, y :: x - y >= 0.000001 ==> c.sixPlaces(x) != c.sixPlaces(y)
  }

  lemma SameAmountWritten(c: Codec, r: JournalRecord, s: JournalRecord)
    requires TellsApart(c) && r.HashedFields(c)[11] == s.HashedFields(c)[11]
    ensures -0.000001001 < r.totalNetContribution - s.totalNetContribution < 0.000001001
  {
    AmountReads(c, r);
    AmountReads(c, s);
  }

  /** Moving the amount of an intact plain record by 1.001e-6 or more is noticed, whatever else is changed. */
  lemma MovedAmountIsNoticed(c: Codec, r: JournalRecord, s: JournalRecord)
    requires Sound(c) && TellsApart(c) && r.Plain() && r.VerifyIntegrity(c) && s.recordHash == r.recordHash
    requires s.totalNetContribution - r.totalNetContribution >= 0.000001001
          || r.totalNetContribution - s.totalNetContribution >= 0.000001001
    ensures !s.VerifyIntegrity(c)
  {
    if s.VerifyIntegrity(c) {
      TamperingIsNoticed(c, r, s);
      assert r.HashedFields(c)[11] == s.HashedFields(c)[11];
      SameAmountWritten(c, r, s);
      assert false;
    }
  }

  /** Amounts within 1e-9 of zero are all the same to the hash. */
  lemma TinyAmountsAreOne(c: Codec, r: JournalRecord, amount: real)
    requires -0.000000001 < r.totalNetContribution < 0.000000001 && -0.000000001 < amount < 0.000000001
    ensures r.(totalNetContribution := amount).Payload(c) == r.Payload(c)
  {
    assert r.(totalNetContribution := amount).HashedFields(c) == r.HashedFields(c);
  }

  // ---- Where separators do collide ----

  /** g is f with a separator slid across the border between fields k and k + 1. */
  ghost predicate Slid(f: seq<string>, g: seq<string>, k: nat)
    requires |f| == |g| && k + 1 < |f|
  {
    && f[k] + [SEPARATOR] + f[k + 1] == g[k] + [SEPARATOR] + g[k + 1] && f[k] != g[k]
    && forall i :: 0 <= i < |f| && i != k && i != k + 1 ==> f[i] == g[i]
  }

  /** What follows fields k and k + 1 in the joined text. */
  function After(f: seq<string>, k: nat): string
    requires k + 1 < |f|
  {
    if k + 2 < |f| then [SEPARATOR] + Joined(f[k + 2..]) else ""
  }

  lemma JoinedPair(f: seq<string>, k: nat)
    requires k + 1 < |f|
    ensures Joined(f[k..]) == f[k] + [SEPARATOR] + f[k + 1] + After(f, k)
  {
    assert f[k..][1..] == f[k + 1..] && f[k + 1..][1..] == f[k + 2..];
    assert Joined(f[k..]) == f[k] + [SEPARATOR] + Joined(f[k + 1..]);
    assert Joined(f[k + 1..]) == f[k + 1] + After(f, k);
  }

  lemma {:induction false} SlidJoinsAlike(f: seq<string>, g: seq<string>, k: nat)
    requires |f| == |g| && k + 1 < |f| && Slid(f, g, k)
    ensures Joined(f) == Joined(g)
  {
    JoinedPair(f, k);
    JoinedPair(g, k);
    assert f[k + 2..] == g[k + 2..] && f[..k] == g[..k];
    TailsDecide(f, g, k);
  }

  /** Two texts, one with a separator, that other two join to. */
  lemma SlideSeparator(a: string, b: string) returns (x: string, y: string)
    requires !SeparatorFree(a) || !SeparatorFree(b)
    ensures a + [SEPARATOR] + b == x + [SEPARATOR] + y && a != x
  {
    if !SeparatorFree(a) {
      var i :| 0 <= i < |a| && a[i] == SEPARATOR;
      x, y := a[..i], a[i + 1..] + [SEPARATOR] + b;
      assert a == a[..i] + [SEPARATOR] + a[i + 1..];
    } else {
      var i :| 0 <= i < |b| && b[i] == SEPARATOR;
      x, y := a + [SEPARATOR] + b[..i], b[i + 1..];
      assert b == b[..i] + [SEPARATOR] + b[i + 1..];
      assert |x| > |a|;
    }
  }

  /** r with its neighbouring text fields k and k + 1 replaced. */
  ghost function WithTexts(r: JournalRecord, k: nat, x: string, y: string): JournalRecord
    requires k in {0, 4, 6, 8, 9}
  {
    if k == 0 then r.(prevRecordHash := x, runID := y)
    else if k == 4 then r.(decisionID := x, runtimeVersion := y)
    else if k == 6 then r.(policyName := x, policyParamHash := y)
    else if k == 8 then r.(initialStateHash := x, actionHash := y)
    else r.(actionHash := x, nextStateHash := y)
  }

  lemma TextsReplaced(c: Codec, r: JournalRecord, k: nat, x: string, y: string)
    requires k in {0, 4, 6, 8, 9}
    ensures WithTexts(r, k, x, y).HashedFields(c) == r.HashedFields(c)[k := x][k + 1 := y]
  {
  }

  /** Another record with the same payload and the same stored hash, that differs in some hashed field. */
  ghost predicate Twins(c: Codec, r: JournalRecord, s: JournalRecord) {
    && s.Payload(c) == r.Payload(c) && s.recordHash == r.recordHash && !SameFields(c, r, s)
    && (s.VerifyIntegrity(c) <==> r.VerifyIntegrity(c))
  }

  lemma TwinAt(c: Codec, r: JournalRecord, k: nat) returns (s: JournalRecord)
    requires k in {0, 4, 6, 8, 9}
    requires !SeparatorFree(r.HashedFields(c)[k]) || !SeparatorFree(r.HashedFields(c)[k + 1])
    ensures Twins(c, r, s) && (k != 0 ==> s.prevRecordHash == r.prevRecordHash && s.runID == r.runID)
  {
    var f := r.HashedFields(c);
    var x, y := SlideSeparator(f[k], f[k + 1]);
    s := WithTexts(r, k, x, y);
    TextsReplaced(c, r, k, x, y);
    SlidJoinsAlike(f, s.HashedFields(c), k);
    assert s.HashedFields(c)[k] != f[k];
    assert SameFields(c, r, s) ==> r.HashedFields(c) == s.HashedFields(c);
  }

  /** A separator in the caller's notes can always be slid without touching the link or the run's name. */
  lemma NotesTwin(c: Codec, r: JournalRecord) returns (s: JournalRecord)
    requires !r.PlainNotes()
    ensures Twins(c, r, s) && s.prevRecordHash == r.prevRecordHash && s.runID == r.runID
  {
    s := TwinAt(c, r,
      if !SeparatorFree(r.decisionID) || !SeparatorFree(r.runtimeVersion) then 4
      else if !SeparatorFree(r.policyName) || !SeparatorFree(r.policyParamHash) then 6
      else if !SeparatorFree(r.initialStateHash) || !SeparatorFree(r.actionHash) then 8
      else 9);
  }

  /** A record shares its payload, hence its hash, with a different one exactly when some text field of it contains the
      separator. */
  lemma SeparatorsCollide(c: Codec, r: JournalRecord)
    requires Sound(c)
    ensures (exists s :: Twins(c, r, s)) <==> !r.Plain()
  {
    if r.Plain() {
      forall s
        ensures !Twins(c, r, s)
      {
        PayloadDeterminesFields(c, r, s);
      }
    } else if r.PlainNotes() {
      var s := TwinAt(c, r, 0);
    } else {
      var s := NotesTwin(c, r);
    }
  }

  lemma {:induction false} TailsDecide(f: seq<string>, g: seq<string>, k: nat)
    requires |f| == |g| && k < |f| && f[..k] == g[..k] && Joined(f[k..]) == Joined(g[k..])
    ensures Joined(f) == Joined(g)
  {
    if k == 0 {
      assert f[0..] == f && g[0..] == g;
    } else {
      assert f[k - 1..][1..] == f[k..] && g[k - 1..][1..] == g[k..];
      assert f[k - 1] == f[..k][k - 1] == g[..k][k - 1] == g[k - 1];
      assert f[..k - 1] == f[..k][..k - 1] == g[..k][..k - 1] == g[..k - 1];
      TailsDecide(f, g, k - 1);
    }
  }

  /** Every change of an intact record's hashed fields is noticed exactly when none of its text fields contains the
      separator. */
  lemma TamperEvidentIff(c: Codec, r: JournalRecord)
    requires Sound(c) && r.VerifyIntegrity(c)
    ensures (forall s: JournalRecord :: s.recordHash == r.recordHash && s.VerifyIntegrity(c) ==> SameFields(c, r, s))
       <==> r.Plain()
  {
    if r.Plain() {
      forall s: JournalRecord | s.recordHash == r.recordHash && s.VerifyIntegrity(c)
        ensures SameFields(c, r, s)
      {
        TamperingIsNoticed(c, r, s);
      }
    } else {
      SeparatorsCollide(c, r);
    }
  }

  // ---- When the link is known to be plain ----

  /** The three fields after the link, as they are written. */
  ghost function Head(c: Codec, runID: string, epoch: int, batchSeq: int): string {
    runID + [SEPARATOR] + c.decimal(epoch) + [SEPARATOR] + c.decimal(batchSeq)
  }

  ghost function HeadOf(c: Codec, r: JournalRecord): string {
    Head(c, r.runID, r.epoch, r.batchSeq)
  }

  /** The fields after those. */
  ghost function Notes(c: Codec, r: JournalRecord): (f: seq<string>)
    ensures |f| == 8 && f[0] == r.decisionID
  {
    r.HashedFields(c)[4..]
  }

  ghost function Extended(head: string, y: string): string {
    head + [SEPARATOR] + y
  }

  /** The run's name can be read differently: as a shorter name, two numbers and a surplus. */
  ghost predicate Ambiguous(c: Codec, r: JournalRecord) {
    exists x, e, b, y {:trigger Extended(Head(c, x, e, b), y)} :: Extended(Head(c, x, e, b), y) == HeadOf(c, r)
  }

  /** The name and the numbers after it can be told apart, and the other text fields are plain. */
  ghost predicate Readable(c: Codec, r: JournalRecord) {
    r.PlainNotes() && !Ambiguous(c, r)
  }

  lemma JoinedFrom(f: seq<string>, k: nat)
    requires k + 1 < |f|
    ensures Joined(f[k..]) == f[k] + [SEPARATOR] + Joined(f[k + 1..])
  {
    assert f[k..][1..] == f[k + 1..];
  }

  lemma PayloadParts(c: Codec, r: JournalRecord)
    ensures r.Payload(c) == r.prevRecordHash + [SEPARATOR] + Extended(HeadOf(c, r), Joined(Notes(c, r)))
  {
    var f := r.HashedFields(c);
    assert f[0..] == f;
    JoinedFrom(f, 0);
    JoinedFrom(f, 1);
    JoinedFrom(f, 2);
    JoinedFrom(f, 3);
    Regroup(f[1], f[2], f[3], Joined(f[4..]));
  }

  lemma Regroup(x: string, y: string, z: string, rest: string)
    ensures x + [SEPARATOR] + (y + [SEPARATOR] + (z + [SEPARATOR] + rest))
         == x + [SEPARATOR] + y + [SEPARATOR] + z + [SEPARATOR] + rest
  {
  }

  lemma NotesArePlain(c: Codec, r: JournalRecord)
    requires Sound(c)
    ensures AllPlain(Notes(c, r)) <==> r.PlainNotes()
  {
    var f := Notes(c, r);
    assert f[1] == r.runtimeVersion && f[2] == r.policyName && f[3] == r.policyParamHash;
    assert f[4] == r.initialStateHash && f[5] == r.actionHash && f[6] == r.nextStateHash;
    assert f[7] == c.sixPlaces(r.Contribution());
  }

  /** Text after the last separator is determined. */
  lemma LastFieldDetermined(a: string, b: string, x: string, y: string)
    requires SeparatorFree(x) && SeparatorFree(y) && a + [SEPARATOR] + x == b + [SEPARATOR] + y
    ensures a == b && x == y
  {
    var s := a + [SEPARATOR] + x;
    assert s[|a|] == s[|b|] == SEPARATOR;
    assert forall i :: |a| < i < |s| ==> s[i] == x[i - |a| - 1];
    assert forall i :: |b| < i < |s| ==> s[i] == y[i - |b| - 1];
    assert |a| == |b|;
    assert a == s[..|a|] && b == s[..|b|];
    assert x == s[|a| + 1..] && y == s[|b| + 1..];
  }

  lemma HeadDetermined(c: Codec, r: JournalRecord, s: JournalRecord)
    requires Sound(c) && HeadOf(c, r) == HeadOf(c, s)
    ensures r.runID == s.runID && r.epoch == s.epoch && r.batchSeq == s.batchSeq
  {
    var x, y := r.runID + [SEPARATOR] + c.decimal(r.epoch), s.runID + [SEPARATOR] + c.decimal(s.epoch);
    LastFieldDetermined(x, y, c.decimal(r.batchSeq), c.decimal(s.batchSeq));
    LastFieldDetermined(r.runID, s.runID, c.decimal(r.epoch), c.decimal(s.epoch));
  }

  /** Two splits of one text: where the right part of the first has no more separators than that of the second, either
      the splits are the same or the second is further left. */
  lemma SplitFurtherLeft(a: string, n: string, b: string, m: string) returns (y: string)
    requires Extended(a, n) == Extended(b, m) && Bars(n) <= Bars(m)
    ensures (a == b && n == m) || (a == Extended(b, y) && m == Extended(y, n))
  {
    var s := Extended(a, n);
    y := "";
    assert a == s[..|a|] && b == s[..|b|] && n == s[|a| + 1..] && m == s[|b| + 1..];
    if |a| < |b| {
      var w := s[|a| + 1..|b|];
      assert n == w + [SEPARATOR] + m;
      BarsAdd(w + [SEPARATOR], m);
      BarsAdd(w, [SEPARATOR]);
      OneBar();
      assert false;
    } else if |b| < |a| {
      y := s[|b| + 1..|a|];
      assert s[|b|] == SEPARATOR;
      assert a == b + [SEPARATOR] + y && m == y + [SEPARATOR] + n;
    }
  }

  /** Behind a plain link, a readable record's payload determines its fields. */
  lemma ReadableIsDetermined(c: Codec, r: JournalRecord, s: JournalRecord)
    requires Sound(c) && Readable(c, r) && SeparatorFree(r.prevRecordHash) && SeparatorFree(s.prevRecordHash)
    ensures r.Payload(c) == s.Payload(c) <==> SameFields(c, r, s)
  {
    if r.Payload(c) == s.Payload(c) {
      var n, m := Joined(Notes(c, r)), Joined(Notes(c, s));
      PayloadParts(c, r);
      PayloadParts(c, s);
      FirstFieldDetermined(r.prevRecordHash, s.prevRecordHash, Extended(HeadOf(c, r), n), Extended(HeadOf(c, s), m));
      NotesArePlain(c, r);
      NoTotalBars(Notes(c, r));
      BarsJoined(Notes(c, r));
      BarsJoined(Notes(c, s));
      var y := SplitFurtherLeft(HeadOf(c, r), n, HeadOf(c, s), m);
      SameSplit(c, r, s);
    }
    assert SameFields(c, r, s) ==> r.HashedFields(c) == s.HashedFields(c);
  }

  lemma SameSplit(c: Codec, r: JournalRecord, s: JournalRecord)
    requires Sound(c) && r.PlainNotes() && r.prevRecordHash == s.prevRecordHash
    requires HeadOf(c, r) == HeadOf(c, s) && Joined(Notes(c, r)) == Joined(Notes(c, s))
    ensures SameFields(c, r, s)
  {
    HeadDetermined(c, r, s);
    NotesArePlain(c, r);
    PlainTogether(Notes(c, r), Notes(c, s));
    JoinedIsInjective(Notes(c, r), Notes(c, s));
    var f, g := r.HashedFields(c), s.HashedFields(c);
    assert f == f[..4] + f[4..] && g == g[..4] + g[4..];
    assert f[..4] == g[..4];
    ReadBack(c, r, s);
  }

  /** A name read differently: the surplus goes in front of the decision's name. */
  lemma AmbiguousTwin(c: Codec, r: JournalRecord) returns (s: JournalRecord)
    requires Ambiguous(c, r)
    ensures Twins(c, r, s) && s.prevRecordHash == r.prevRecordHash
  {
    var x, e, b, y :| Extended(Head(c, x, e, b), y) == HeadOf(c, r);
    s := r.(runID := x, epoch := e, batchSeq := b, decisionID := Extended(y, r.decisionID));
    PayloadParts(c, r);
    PayloadParts(c, s);
    var f, g := Notes(c, r), Notes(c, s);
    assert f[1..] == g[1..];
    assert f[0..] == f && g[0..] == g;
    JoinedFrom(f, 0);
    JoinedFrom(g, 0);
    SurplusMoves(Head(c, x, e, b), y, r.decisionID, Joined(f[1..]));
    assert |s.decisionID| > |r.decisionID|;
  }

  lemma SurplusMoves(head: string, y: string, d: string, rest: string)
    ensures Extended(Extended(head, y), d + [SEPARATOR] + rest)
         == Extended(head, Extended(y, d) + [SEPARATOR] + rest)
  {
  }

  /** Without separators there is nothing to confuse. */
  lemma PlainIsReadable(c: Codec, r: JournalRecord)
    requires Sound(c) && r.PlainFields()
    ensures Readable(c, r)
  {
    HeadBars(c, r.runID, r.epoch, r.batchSeq);
    NoBars(r.runID);
    OneBar();
    forall x, e, b, y
      ensures Bars(Extended(Head(c, x, e, b), y)) > 2
    {
      HeadBars(c, x, e, b);
      BarsAdd(Head(c, x, e, b) + [SEPARATOR], y);
      BarsAdd(Head(c, x, e, b), [SEPARATOR]);
    }
  }

  lemma {:induction false} HeadBars(c: Codec, runID: string, epoch: int, batchSeq: int)
    requires Sound(c)
    ensures Bars(Head(c, runID, epoch, batchSeq)) == Bars(runID) + 2
  {
    var f := [runID, c.decimal(epoch), c.decimal(batchSeq)];
    assert f[1..][1..] == [f[2]] && f[1..] == [f[1], f[2]] && f[2..] == [f[2]];
    BarsJoined(f);
    NoBars(f[1]);
    NoBars(f[2]);
    assert TotalBars([f[2]]) == Bars(f[2]) + TotalBars([f[2]][1..]);
    assert TotalBars(f[1..]) == Bars(f[1]) + TotalBars(f[1..][1..]);
    Regroup(f[0], f[1], f[2], "");
    assert Joined([f[2]]) == f[2] && Joined(f[1..]) == f[1] + [SEPARATOR] + f[2];
    assert Joined(f) == f[0] + [SEPARATOR] + (f[1] + [SEPARATOR] + f[2]) == Head(c, runID, epoch, batchSeq);
  }

  // ---- Chains ----

  /** Every record is intact and linked to the one before, the first to the genesis value. */
  ghost predicate Chain(c: Codec, records: seq<JournalRecord>) {
    forall i :: 0 <= i < |records| ==> LinkOk(c, records, i)
  }

  predicate LinkOk(c: Codec, records: seq<JournalRecord>, i: nat)
    requires i < |records|
  {
    records[i].VerifyIntegrity(c) &&
    records[i].prevRecordHash == if i == 0 then GENESIS else records[i - 1].recordHash
  }

  lemma LinkHashIsPlain(c: Codec, a: seq<JournalRecord>, i: nat)
    requires Sound(c) && Chain(c, a) && i < |a|
    ensures SeparatorFree(a[i].prevRecordHash)
    ensures a[i].prevRecordHash == GENESIS <==> i == 0
  {
    assert LinkOk(c, a, i);
    if i > 0 {
      assert LinkOk(c, a, i - 1);
    }
  }

  lemma SameHashSameRecord(c: Codec, r: JournalRecord, s: JournalRecord)
    requires Sound(c) && r.VerifyIntegrity(c) && s.VerifyIntegrity(c) && r.recordHash == s.recordHash
    requires SeparatorFree(r.prevRecordHash) && SeparatorFree(s.prevRecordHash)
    ensures r.Payload(c) == s.Payload(c) && r.prevRecordHash == s.prevRecordHash
  {
    var f, g := r.HashedFields(c), s.HashedFields(c);
    FirstFieldDetermined(f[0], g[0], Joined(f[1..]), Joined(g[1..]));
  }

  /** The last hash of a verified chain determines its length and every payload in it. */
  lemma {:induction false} FinalHashDeterminesPayloads(c: Codec, a: seq<JournalRecord>, b: seq<JournalRecord>)
    requires Sound(c) && Chain(c, a) && Chain(c, b) && a != [] && b != []
    requires a[|a| - 1].recordHash == b[|b| - 1].recordHash
    ensures SamePayloads(c, a, b)
  {
    var n, m := |a| - 1, |b| - 1;
    LastLinksAgree(c, a, b);
    if n > 0 {
      ChainPrefix(c, a);
      ChainPrefix(c, b);
      FinalHashDeterminesPayloads(c, a[..n], b[..m]);
      PayloadsExtend(c, a, b);
    }
  }

  ghost predicate SamePayloads(c: Codec, a: seq<JournalRecord>, b: seq<JournalRecord>) {
    |a| == |b| && forall i :: 0 <= i < |a| ==> a[i].Payload(c) == b[i].Payload(c)
  }

  lemma PayloadsExtend(c: Codec, a: seq<JournalRecord>, b: seq<JournalRecord>)
    requires a != [] && b != [] && SamePayloads(c, a[..|a| - 1], b[..|b| - 1])
    requires a[|a| - 1].Payload(c) == b[|b| - 1].Payload(c)
    ensures SamePayloads(c, a, b)
  {
    forall i | 0 <= i < |a|
      ensures a[i].Payload(c) == b[i].Payload(c)
    {
      if i < |a| - 1 {
        assert a[..|a| - 1][i].Payload(c) == b[..|b| - 1][i].Payload(c);
      }
    }
  }

  lemma LastLinksAgree(c: Codec, a: seq<JournalRecord>, b: seq<JournalRecord>)
    requires Sound(c) && Chain(c, a) && Chain(c, b) && a != [] && b != []
    requires a[|a| - 1].recordHash == b[|b| - 1].recordHash
    ensures a[|a| - 1].Payload(c) == b[|b| - 1].Payload(c)
    ensures |a| == 1 <==> |b| == 1
    ensures |a| > 1 ==> a[|a| - 2].recordHash == b[|b| - 2].recordHash
  {
    var n, m := |a| - 1, |b| - 1;
    assert LinkOk(c, a, n) && LinkOk(c, b, m);
    LinkHashIsPlain(c, a, n);
    LinkHashIsPlain(c, b, m);
    SameHashSameRecord(c, a[n], b[m]);
  }

  lemma ChainPrefix(c: Codec, a: seq<JournalRecord>)
    requires Chain(c, a) && a != []
    ensures Chain(c, a[..|a| - 1])
  {
    var front := a[..|a| - 1];
    forall i | 0 <= i < |front|
      ensures LinkOk(c, front, i)
    {
      assert LinkOk(c, a, i);
    }
  }

  /** The two chains agree on every hashed field, and every hash, at every position. */
  ghost predicate SameHistory(c: Codec, a: seq<JournalRecord>, b: seq<JournalRecord>) {
    |a| == |b| && forall i :: 0 <= i < |a| ==> SameFields(c, a[i], b[i]) && a[i].recordHash == b[i].recordHash
  }

  ghost predicate SameEnd(a: seq<JournalRecord>, b: seq<JournalRecord>) {
    a != [] && b != [] && a[|a| - 1].recordHash == b[|b| - 1].recordHash
  }

  /** Tamper evidence: the last hash of a verified chain of readable records determines every hashed field of every
      record, against any other verified chain. */
  lemma FinalHashDeterminesChain(c: Codec, a: seq<JournalRecord>, b: seq<JournalRecord>)
    requires Sound(c) && Chain(c, a) && Chain(c, b) && SameEnd(a, b)
    requires forall i :: 0 <= i < |a| ==> Readable(c, a[i])
    ensures SameHistory(c, a, b)
  {
    FinalHashDeterminesPayloads(c, a, b);
    assert SamePayloads(c, a, b);
    forall i | 0 <= i < |a|
      ensures SameFields(c, a[i], b[i]) && a[i].recordHash == b[i].recordHash
    {
      LinkHashIsPlain(c, a, i);
      LinkHashIsPlain(c, b, i);
      ReadableIsDetermined(c, a[i], b[i]);
      assert LinkOk(c, a, i) && LinkOk(c, b, i);
    }
  }

  lemma ReplaceInChain(c: Codec, a: seq<JournalRecord>, i: nat, s: JournalRecord)
    requires Chain(c, a) && i < |a| && Twins(c, a[i], s) && s.prevRecordHash == a[i].prevRecordHash
    ensures Chain(c, a[i := s]) && SameEnd(a, a[i := s]) && !SameHistory(c, a, a[i := s])
  {
    var b := a[i := s];
    assert LinkOk(c, a, i);
    forall k | 0 <= k < |b|
      ensures LinkOk(c, b, k)
    {
      assert LinkOk(c, a, k);
    }
    assert !SameFields(c, a[i], b[i]);
  }

  /** The last hash of a verified chain determines the chain exactly when all its records are readable. */
  lemma ChainIsDeterminedIff(c: Codec, a: seq<JournalRecord>)
    requires Sound(c) && Chain(c, a) && a != []
    ensures (forall b :: Chain(c, b) && SameEnd(a, b) ==> SameHistory(c, a, b))
       <==> forall i :: 0 <= i < |a| ==> Readable(c, a[i])
  {
    if forall i :: 0 <= i < |a| ==> Readable(c, a[i]) {
      forall b | Chain(c, b) && SameEnd(a, b)
        ensures SameHistory(c, a, b)
      {
        FinalHashDeterminesChain(c, a, b);
      }
    } else {
      var i :| 0 <= i < |a| && !Readable(c, a[i]);
      var s;
      if a[i].PlainNotes() {
        s := AmbiguousTwin(c, a[i]);
      } else {
        s := NotesTwin(c, a[i]);
      }
      ReplaceInChain(c, a, i, s);
    }
  }

  /** The last hash of a verified chain of readable records determines every amount in it to within 1.001e-6. */
  lemma FinalHashDeterminesAmounts(c: Codec, a: seq<JournalRecord>, b: seq<JournalRecord>)
    requires Sound(c) && TellsApart(c) && Chain(c, a) && Chain(c, b) && SameEnd(a, b)
    requires forall i :: 0 <= i < |a| ==> Readable(c, a[i])
    ensures |a| == |b|
    ensures forall i :: 0 <= i < |a| ==>
      -0.000001001 < a[i].totalNetContribution - b[i].totalNetContribution < 0.000001001
  {
    FinalHashDeterminesChain(c, a, b);
    forall i | 0 <= i < |a|
      ensures -0.000001001 < a[i].totalNetContribution - b[i].totalNetContribution < 0.000001001
    {
      assert SameFields(c, a[i], b[i]);
      assert a[i].HashedFields(c)[11] == b[i].HashedFields(c)[11];
      SameAmountWritten(c, a[i], b[i]);
    }
  }
}
