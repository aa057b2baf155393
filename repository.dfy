/** The transaction store (repository/storage-repository.go) with the database
    replaced by an in-memory table, and the account list of
    repository/mock-db.go. The clock and the random source are supplied as a
    sequence of (timestamp, random number) candidates. */
module Repository {
  import opened Wrappers
  import opened Constants
  import opened Dto
  import opened Models

  datatype StoreError = ReferenceExhausted | DbCreateFailed

  // ---- the reference format TRX-<timestamp>-<random> ----

  predicate IsDigit(c: char) { '0' <= c <= '9' }

  predicate AllDigits(s: string) { forall i :: 0 <= i < |s| ==> IsDigit(s[i]) }

  function DigitChar(d: nat): (c: char)
    requires d < 10
    ensures IsDigit(c) && c as int - '0' as int == d
  {
    ('0' as int + d) as char
  }

  /** The decimal digits of n, as `%d` prints a non-negative number. */
  function NatToDecimal(n: nat): (s: string)
    ensures |s| > 0 && AllDigits(s)
  {
    if n < 10 then [DigitChar(n)] else NatToDecimal(n / 10) + [DigitChar(n % 10)]
  }

  /** The decimal form of a signed number, with a leading minus when negative. */
  function IntToDecimal(i: int): string
  {
    if i < 0 then "-" + NatToDecimal(-i) else NatToDecimal(i)
  }

  /** The value of a string of decimal digits. */
  function DecimalValue(s: string): nat
    requires AllDigits(s)
  {
    if s == [] then 0 else DecimalValue(s[..|s| - 1]) * 10 + (s[|s| - 1] as int - '0' as int)
  }

  const ReferencePrefix: string := "TRX-"

  /** `TRX-<timestamp>-<random>`, as the store's `%s-%d-%d` format prints it. */
  function FormatReference(timestamp: int, random: nat): (r: string)
    ensures |r| > |ReferencePrefix| && r[..|ReferencePrefix|] == ReferencePrefix
  {
    ReferencePrefix + IntToDecimal(timestamp) + "-" + NatToDecimal(random)
  }

  lemma {:induction false} DecimalRoundTrip(n: nat)
    ensures DecimalValue(NatToDecimal(n)) == n
  {
    var s := NatToDecimal(n);
    if n >= 10 {
      DecimalRoundTrip(n / 10);
      assert s[..|s| - 1] == NatToDecimal(n / 10);
    }
  }

  /** `%d` of a signed number: a leading minus exactly for a negative number,
      then the digits of its magnitude, which read back as that magnitude. */
  lemma SignedDecimalRoundTrip(i: int)
    ensures var s := IntToDecimal(i);
            && |s| > 0 && (s[0] == '-' <==> i < 0)
            && (i < 0 ==> AllDigits(s[1..]) && DecimalValue(s[1..]) == -i)
            && (i >= 0 ==> AllDigits(s) && DecimalValue(s) == i)
  {
    if i < 0 {
      DecimalRoundTrip(-i);
      assert IntToDecimal(i)[1..] == NatToDecimal(-i);
    } else {
      DecimalRoundTrip(i);
    }
  }

  lemma {:induction false} NatToDecimalInjective(a: nat, b: nat)
    ensures NatToDecimal(a) == NatToDecimal(b) ==> a == b
  {
    DecimalRoundTrip(a);
    DecimalRoundTrip(b);
  }

  /** In a digit string followed by a dash, that dash is the first one. */
  lemma {:induction false} FirstDash(a: string, b: string)
    requires AllDigits(a)
    ensures (a + "-" + b)[|a|] == '-'
    ensures forall k :: 0 <= k < |a| ==> (a + "-" + b)[k] != '-'
  {
  }

  /** A dash between two digit strings marks a unique split point. */
  lemma {:induction false} SplitAtDash(a: string, b: string, c: string, d: string)
    requires AllDigits(a) && AllDigits(c)
    requires a + "-" + b == c + "-" + d
    ensures a == c && b == d
  {
    var s := a + "-" + b;
    FirstDash(a, b);
    FirstDash(c, d);
    assert |a| == |c|;
    assert a == s[..|a|] == c;
    assert b == s[|a| + 1..] == d;
  }

  lemma {:induction false} DropPrefix(p: string, x: string, y: string)
    requires p + x == p + y
    ensures x == y
  {
    assert x == (p + x)[|p|..];
    assert y == (p + y)[|p|..];
  }

  /** The first character of a signed decimal tells its sign. */
  lemma {:induction false} LeadingSign(t: int, r: nat)
    ensures var tail := IntToDecimal(t) + "-" + NatToDecimal(r);
            |tail| > 0 && (tail[0] == '-' <==> t < 0)
  {
    var tail := IntToDecimal(t) + "-" + NatToDecimal(r);
    if t >= 0 {
      assert tail[0] == NatToDecimal(t)[0];
    }
  }

  lemma {:induction false} NegativeTail(t: int, r: nat)
    requires t < 0
    ensures IntToDecimal(t) + "-" + NatToDecimal(r) == "-" + (NatToDecimal(-t) + "-" + NatToDecimal(r))
  {
  }

  /** The part after the prefix, "<timestamp>-<random>", determines both numbers. */
  lemma {:induction false} SignedSplit(t1: int, r1: nat, t2: int, r2: nat)
    requires IntToDecimal(t1) + "-" + NatToDecimal(r1) == IntToDecimal(t2) + "-" + NatToDecimal(r2)
    ensures t1 == t2 && r1 == r2
  {
    LeadingSign(t1, r1);
    LeadingSign(t2, r2);
    var n1: nat, n2: nat := if t1 < 0 then -t1 else t1, if t2 < 0 then -t2 else t2;
    if t1 < 0 {
      NegativeTail(t1, r1);
      NegativeTail(t2, r2);
      DropPrefix("-", NatToDecimal(n1) + "-" + NatToDecimal(r1), NatToDecimal(n2) + "-" + NatToDecimal(r2));
    }
    SplitAtDash(NatToDecimal(n1), NatToDecimal(r1), NatToDecimal(n2), NatToDecimal(r2));
    NatToDecimalInjective(n1, n2);
    NatToDecimalInjective(r1, r2);
  }

  /** Two candidates give the same reference only when they are the same
      (timestamp, random number) pair, so the collision check fires on nothing else. */
  lemma {:induction false} FormatReferenceInjective(t1: int, r1: nat, t2: int, r2: nat)
    ensures FormatReference(t1, r1) == FormatReference(t2, r2) <==> t1 == t2 && r1 == r2
  {
    if FormatReference(t1, r1) == FormatReference(t2, r2) {
      var tail1 := IntToDecimal(t1) + "-" + NatToDecimal(r1);
      var tail2 := IntToDecimal(t2) + "-" + NatToDecimal(r2);
      assert FormatReference(t1, r1) == ReferencePrefix + tail1;
      assert FormatReference(t2, r2) == ReferencePrefix + tail2;
      DropPrefix(ReferencePrefix, tail1, tail2);
      SignedSplit(t1, r1, t2, r2);
    }
  }

  // ---- the store ----

  /** `users[i]` is the first account of `users` whose ID is `id`. */
  ghost predicate IsFirstMatch(users: seq<UserAccount>, id: int, i: int)
  {
    0 <= i < |users| && users[i].id == id && forall j :: 0 <= j < i ==> users[j].id != id
  }

  /** The position of the first account of `users` whose ID is `id`, or
      `|users|` when there is none. */
  function FirstMatch(users: seq<UserAccount>, id: int): (i: nat)
    ensures i <= |users|
    ensures i < |users| ==> IsFirstMatch(users, id, i)
    ensures i == |users| <==> forall u :: u in users ==> u.id != id
  {
    if |users| == 0 then 0
    else if users[0].id == id then 0
    else
      assert forall u :: u in users[1..] ==> u in users;
      assert forall u :: u in users ==> u == users[0] || u in users[1..];
      1 + FirstMatch(users[1..], id)
  }

  /** Every (timestamp, random) candidate gives a reference already stored. */
  ghost predicate AllReferencesTaken(transactions: seq<Transaction>, candidates: seq<(int, nat)>)
  {
    forall i :: 0 <= i < |candidates| ==> exists t :: t in transactions && t.reference == FormatReference(candidates[i].0, candidates[i].1)
  }

  /** Nothing is stored yet, so any candidate reference is free. */
  lemma EmptyStoreTakesNoReference(candidates: seq<(int, nat)>)
    requires |candidates| > 0
    ensures !AllReferencesTaken([], candidates)
  {
    var none: seq<Transaction> := [];
    var c := candidates[0];
    var r := FormatReference(c.0, c.1);
    assert !(exists t :: t in none && t.reference == r);
    assert AllReferencesTaken(none, candidates) ==> exists t :: t in none && t.reference == r;
  }

  /** The first transaction of `ts` with this reference, if any. */
  function FirstWithReference(ts: seq<Transaction>, reference: string): (r: Option<Transaction>)
    ensures r.Some? ==> (exists i :: 0 <= i < |ts| && ts[i] == r.value && r.value.reference == reference
                           && forall j :: 0 <= j < i ==> ts[j].reference != reference)
    ensures r.None? <==> forall t :: t in ts ==> t.reference != reference
  {
    if ts == [] then None
    else if ts[0].reference == reference then Some(ts[0])
    else FirstWithReference(ts[1..], reference)
  }

  class StorageRepository {
    /** The accounts, in the order the lookup scans them. */
    const users: seq<UserAccount>
    /** The transaction table, in creation order. */
    var transactions: seq<Transaction>

    /** Stored references are non-empty and pairwise distinct. */
    ghost predicate Valid()
      reads this
    {
      && (forall i :: 0 <= i < |transactions| ==> transactions[i].reference != "")
      && (forall i, j :: 0 <= i < j < |transactions| ==> transactions[i].reference != transactions[j].reference)
    }

    constructor (users: seq<UserAccount>)
      ensures this.users == users && transactions == [] && Valid()
    {
      this.users := users;
      transactions := [];
    }

    /** The stored transaction with this reference, or nothing; the empty
        reference finds nothing. */
    function FetchTransactionDetailsByReference(reference: string): (r: Option<Transaction>)
      reads this
      ensures r.Some? ==> r.value in transactions && r.value.reference == reference && reference != ""
      ensures r.None? <==> reference == "" || forall t :: t in transactions ==> t.reference != reference
    {
      if reference == "" then None else FirstWithReference(transactions, reference)
    }

    /** Formats candidates in order until one is held by no stored transaction. */
    method GenerateTransactionReference(candidates: seq<(int, nat)>) returns (r: Result<string, StoreError>)
      ensures r.Ok? ==> forall t :: t in transactions ==> t.reference != r.value
      ensures r.Ok? ==> (exists i :: 0 <= i < |candidates| && r.value == FormatReference(candidates[i].0, candidates[i].1)
                           && AllReferencesTaken(transactions, candidates[..i]))
      ensures r.Err? <==> AllReferencesTaken(transactions, candidates)
      ensures r.Err? ==> r.error == ReferenceExhausted
    {
      var i := 0;
      while i < |candidates|
        invariant 0 <= i <= |candidates|
        invariant AllReferencesTaken(transactions, candidates[..i])
      {
        var reference := FormatReference(candidates[i].0, candidates[i].1);
        var existing := FetchTransactionDetailsByReference(reference);
        if existing.None? {
          return Ok(reference);
        }
        i := i + 1;
      }
      assert candidates[..i] == candidates;
      r := Err(ReferenceExhausted);
    }

    /** The first account with this ID, or null. */
    method FindAccountById(id: int) returns (r: UserAccount?)
      ensures r == if FirstMatch(users, id) < |users| then users[FirstMatch(users, id)] else null
    {
      for i := 0 to |users|
        invariant forall j :: 0 <= j < i ==> users[j].id != id
      {
        if users[i].id == id {
          return users[i];
        }
      }
      r := null;
    }

    /** Stores a pending record with the request's account, amount and
        direction under a freshly generated reference. */
    method CreateTransaction(dto: CreateTransactionDto, candidates: seq<(int, nat)>, dbCreateSucceeds: bool)
      returns (r: Result<Transaction, StoreError>)
      requires Valid()
      modifies this
      ensures Valid()
      ensures r.Ok? ==> r.value.status == TransactionPending && r.value.accountId == dto.accountId
                        && r.value.amount == dto.amount && r.value.direction == dto.direction
      ensures r.Ok? ==> transactions == old(transactions) + [r.value]
      ensures r.Ok? ==> forall t :: t in old(transactions) ==> t.reference != r.value.reference
      ensures r.Ok? ==> exists i :: 0 <= i < |candidates| && r.value.reference == FormatReference(candidates[i].0, candidates[i].1)
      ensures r.Err? ==> transactions == old(transactions)
      ensures r.Ok? <==> dbCreateSucceeds && !AllReferencesTaken(old(transactions), candidates)
      ensures r == Err(ReferenceExhausted) <==> AllReferencesTaken(old(transactions), candidates)
      ensures r == Err(DbCreateFailed) <==> !AllReferencesTaken(old(transactions), candidates) && !dbCreateSucceeds
    {
      var reference := GenerateTransactionReference(candidates);
      if reference.Err? {
        return Err(reference.error);
      }
      var transaction := Transaction(dto.accountId, reference.value, dto.amount, dto.direction, TransactionPending);
      if !dbCreateSucceeds {
        return Err(DbCreateFailed);
      }
      transactions := transactions + [transaction];
      r := Ok(transaction);
    }

    /** Sets the status of a stored transaction; every other field and every
        other record stay as they were. */
    method UpdateTransactionStatus(transaction: Transaction, status: TransactionStatus) returns (updated: Transaction)
      requires Valid()
      requires transaction in transactions
      modifies this
      ensures Valid()
      ensures updated == transaction.(status := status)
      ensures |transactions| == |old(transactions)|
      ensures forall i :: 0 <= i < |transactions| ==>
                transactions[i] == if old(transactions[i]) == transaction then updated else old(transactions[i])
    {
      updated := transaction.(status := status);
      transactions := seq(|transactions|, i requires 0 <= i < |transactions| reads this =>
        if transactions[i] == transaction then updated else transactions[i]);
    }
  }

  /** Two successive creations on one store give different references. */
  method SuccessiveCreationsHaveDistinctReferences(users: seq<UserAccount>, first: CreateTransactionDto, second: CreateTransactionDto,
                                                   candidates1: seq<(int, nat)>, candidates2: seq<(int, nat)>)
    returns (r1: Result<Transaction, StoreError>, r2: Result<Transaction, StoreError>)
    ensures r1.Ok? && r2.Ok? ==> r1.value.reference != r2.value.reference
  {
    var repo := new StorageRepository(users);
    r1 := repo.CreateTransaction(first, candidates1, true);
    r2 := repo.CreateTransaction(second, candidates2, true);
  }
}
