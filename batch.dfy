/**
 * Batch input: `leer_csv` takes the first field of every CSV record, and
 * `verificar_correos_desde_archivo` looks each address up and fills a dict with the
 * results.
 */
module Batch {
  import opened Wrappers
  import opened Dicts
  import opened Report
  import opened Client

  /** A CSV record as `csv.reader` yields it: its list of fields. */
  type Record = seq<string>

  /** Why a batch fails: the exception that escapes `verificar_correos_desde_archivo`. */
  datatype BatchError =
    | EmptyRecord(index: nat)              // `fila[0]` on a blank line: IndexError
    | LookupFailed(index: nat, end: End)   // the lookup of the `index`-th address did not return

  /** `leer_csv`: the first field of each record, in file order, duplicates kept. */
  method ReadEmails(records: seq<Record>) returns (r: Result<seq<Email>, BatchError>)
    ensures r.Success? <==> forall i :: 0 <= i < |records| ==> |records[i]| > 0
    ensures r.Success? ==> |r.value| == |records| && forall i :: 0 <= i < |records| ==> r.value[i] == records[i][0]
    ensures r.Failure? ==> r.error.EmptyRecord? && r.error.index < |records| && |records[r.error.index]| == 0
                           && forall i :: 0 <= i < r.error.index ==> |records[i]| > 0
  {
    var emails: seq<Email> := [];
    for i := 0 to |records|
      invariant |emails| == i
      invariant forall k :: 0 <= k < i ==> |records[k]| > 0 && emails[k] == records[k][0]
    {
      if |records[i]| == 0 {
        return Failure(EmptyRecord(i));
      }
      emails := emails + [records[i][0]];
    }
    r := Success(emails);
  }

  /** The distinct elements of `s`, each at the position of its first occurrence. */
  function Dedup(s: seq<Email>): seq<Email>
  {
    if |s| == 0 then []
    else if s[|s| - 1] in s[..|s| - 1] then Dedup(s[..|s| - 1])
    else Dedup(s[..|s| - 1]) + [s[|s| - 1]]
  }

  /** The index of the last occurrence of `x` in `s`. */
  function LastIndex(s: seq<Email>, x: Email): (i: nat)
    requires x in s
    ensures i < |s| && s[i] == x
    ensures forall j :: i < j < |s| ==> s[j] != x
  {
    if s[|s| - 1] == x then |s| - 1 else LastIndex(s[..|s| - 1], x)
  }

  /** The index of the first occurrence of `x` in `s`. */
  function FirstIndex(s: seq<Email>, x: Email): (i: nat)
    requires x in s
    ensures i < |s| && s[i] == x && x !in s[..i]
  {
    if s[0] == x then 0 else 1 + FirstIndex(s[1..], x)
  }

  /** `Dedup` keeps every element and only those. */
  lemma {:induction false} DedupMembers(s: seq<Email>)
    ensures forall x :: x in Dedup(s) <==> x in s
  {
    if |s| > 0 {
      DedupMembers(s[..|s| - 1]);
      assert s == s[..|s| - 1] + [s[|s| - 1]];
    }
  }

  /** `Dedup` lists each element once, in the order of first occurrences. */
  lemma {:induction false} DedupFirstOccurrenceOrder(s: seq<Email>)
    ensures forall i, j :: 0 <= i < j < |Dedup(s)| ==> Dedup(s)[i] != Dedup(s)[j]
    ensures forall i, j :: 0 <= i < j < |Dedup(s)| ==>
              Dedup(s)[i] in s && Dedup(s)[j] in s && FirstIndex(s, Dedup(s)[i]) < FirstIndex(s, Dedup(s)[j])
  {
    if |s| > 0 {
      var init := s[..|s| - 1];
      var last := s[|s| - 1];
      DedupFirstOccurrenceOrder(init);
      DedupMembers(init);
      forall x | x in init ensures FirstIndex(s, x) == FirstIndex(init, x) {
        FirstIndexPrefix(init, s, x);
      }
      assert s == init + [last];
      if last !in init {
        var d := Dedup(s);
        assert d == Dedup(init) + [last];
        FirstIndexFresh(init, last);
        forall i, j | 0 <= i < j < |d|
          ensures d[i] != d[j] && d[i] in s && d[j] in s && FirstIndex(s, d[i]) < FirstIndex(s, d[j])
        {
          assert d[i] == Dedup(init)[i] && Dedup(init)[i] in Dedup(init);
          FirstIndexPrefix(init, s, d[i]);
          if j < |d| - 1 {
            assert d[j] == Dedup(init)[j] && Dedup(init)[j] in Dedup(init);
            FirstIndexPrefix(init, s, d[j]);
          } else {
            assert d[j] == last;
          }
        }
      } else {
        var d := Dedup(s);
        assert d == Dedup(init);
        forall i, j | 0 <= i < j < |d|
          ensures d[i] in s && d[j] in s && FirstIndex(s, d[i]) < FirstIndex(s, d[j])
        {
          assert d[i] in Dedup(init) && d[j] in Dedup(init);
          FirstIndexPrefix(init, s, d[i]);
          FirstIndexPrefix(init, s, d[j]);
        }
      }
    } else {
      assert Dedup(s) == [];
    }
  }

  lemma {:induction false} FirstIndexPrefix(p: seq<Email>, s: seq<Email>, x: Email)
    requires x in p && p <= s
    ensures x in s && FirstIndex(s, x) == FirstIndex(p, x)
  {
    if p[0] != x {
      assert p[1..] <= s[1..];
      FirstIndexPrefix(p[1..], s[1..], x);
    }
  }

  lemma FirstIndexFresh(p: seq<Email>, x: Email)
    requires x !in p
    ensures FirstIndex(p + [x], x) == |p|
  {
  }

  /**
   * `d` holds the results of looking up `emails` in order, every lookup having
   * returned: the keys in first-occurrence order, and under each address the value
   * of its last lookup.
   */
  ghost predicate Collected(d: Dict<Email, LookupResult>, emails: seq<Email>, lookup: (nat, Email) -> End)
  {
    && d.Valid()
    && d.keys == Dedup(emails)
    && d.values.Keys == (set e | e in emails)
    && forall e :: e in d.values ==> e in emails && d.values[e] == Value(lookup(LastIndex(emails, e), e))
  }

  /** The value a lookup stores in the dict; only a lookup that returned stores one. */
  function Value(end: End): LookupResult {
    if end.Returned? then end.result else None
  }

  /** The dict after `resultados[e] = ...` for the lookups of `emails`, in call order. */
  function Store(emails: seq<Email>, lookup: (nat, Email) -> End): Dict<Email, LookupResult>
  {
    if |emails| == 0 then Empty()
    else
      var i := |emails| - 1;
      Store(emails[..i], lookup).Set(emails[i], Value(lookup(i, emails[i])))
  }

  /** Storing the result of the `i`-th lookup extends what has been collected by one address. */
  lemma CollectedStep(d: Dict<Email, LookupResult>, emails: seq<Email>, i: nat, lookup: (nat, Email) -> End)
    requires i < |emails| && Collected(d, emails[..i], lookup)
    ensures Collected(d.Set(emails[i], Value(lookup(i, emails[i]))), emails[..i + 1], lookup)
  {
    var p, e := emails[..i], emails[i];
    var s := emails[..i + 1];
    assert s == p + [e];
    assert s[..i] == p;
    var d' := d.Set(e, Value(lookup(i, e)));
    assert d'.keys == Dedup(s);
    assert d'.values.Keys == (set x | x in s);
    forall x | x in d'.values
      ensures x in s && d'.values[x] == Value(lookup(LastIndex(s, x), x))
    {
      if x != e {
        assert LastIndex(s, x) == LastIndex(p, x);
      }
    }
  }

  /** The stored dict keeps first-occurrence order and, under each address, its last lookup. */
  lemma {:induction false} StoreCollected(emails: seq<Email>, lookup: (nat, Email) -> End)
    ensures Collected(Store(emails, lookup), emails, lookup)
  {
    if |emails| > 0 {
      var i := |emails| - 1;
      StoreCollected(emails[..i], lookup);
      CollectedStep(Store(emails[..i], lookup), emails, i, lookup);
      assert emails[..i + 1] == emails;
    } else {
      assert Dedup(emails) == [];
    }
  }

  /**
   * The loop of `verificar_correos_desde_archivo`: one lookup per address, in order,
   * each result stored under its address. `lookup(i, e)` is how the `i`-th call, for
   * address `e`, ends; `calls` lists the addresses looked up, in call order. A lookup
   * that raises, or that is still retrying, ends the batch: the exception leaves the
   * function and the results gathered so far are lost.
   */
  method CollectResults(emails: seq<Email>, lookup: (nat, Email) -> End)
    returns (r: Result<Dict<Email, LookupResult>, BatchError>, calls: seq<Email>)
    ensures r.Success? <==> forall i :: 0 <= i < |emails| ==> lookup(i, emails[i]).Returned?
    ensures r.Success? ==> calls == emails && r.value == Store(emails, lookup) && Collected(r.value, emails, lookup)
    ensures r.Failure? ==> r.error.LookupFailed? && r.error.index < |emails|
                           && calls == emails[..r.error.index + 1]
                           && r.error.end == lookup(r.error.index, emails[r.error.index])
                           && !r.error.end.Returned?
                           && forall i :: 0 <= i < r.error.index ==> lookup(i, emails[i]).Returned?
  {
    var results: Dict<Email, LookupResult> := Empty();
    calls := [];
    for i := 0 to |emails|
      invariant calls == emails[..i]
      invariant forall k :: 0 <= k < i ==> lookup(k, emails[k]).Returned?
      invariant results == Store(emails[..i], lookup)
    {
      var email := emails[i];
      var end := lookup(i, email);
      assert emails[..i + 1] == emails[..i] + [email];
      calls := calls + [email];
      if !end.Returned? {
        return Failure(LookupFailed(i, end)), calls;
      }
      assert emails[..i + 1][..i] == emails[..i];
      results := results.Set(email, end.result);
    }
    assert emails[..|emails|] == emails;
    StoreCollected(emails, lookup);
    r := Success(results);
  }

  /**
   * `verificar_correos_desde_archivo`: read the addresses, then look each one up. A
   * blank record raises before any lookup is made; a lookup that does not return
   * ends the batch after its own call.
   */
  method VerifyFile(records: seq<Record>, lookup: (nat, Email) -> End)
    returns (r: Result<Dict<Email, LookupResult>, BatchError>, calls: seq<Email>)
    ensures r.Failure? && r.error.EmptyRecord? <==> exists i :: 0 <= i < |records| && |records[i]| == 0
    ensures r.Failure? && r.error.EmptyRecord? ==> calls == []
    ensures |calls| <= |records| && forall i :: 0 <= i < |calls| ==> |records[i]| > 0 && calls[i] == records[i][0]
    ensures r.Success? ==> |calls| == |records| && r.value == Store(calls, lookup) && Collected(r.value, calls, lookup)
    ensures r.Failure? && r.error.LookupFailed? ==>
              && |calls| == r.error.index + 1
              && r.error.end == lookup(r.error.index, calls[r.error.index])
              && !r.error.end.Returned?
              && forall i :: 0 <= i < r.error.index ==> lookup(i, calls[i]).Returned?
  {
    var read := ReadEmails(records);
    if read.Failure? {
      return Failure(read.error), [];
    }
    r, calls := CollectResults(read.value, lookup);
  }
}
