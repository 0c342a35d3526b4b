/**
 * Result flattening: `procesar_resultados` turns the mapping from each email to its
 * lookup result into the ordered list of report rows shown, exported and mailed.
 */
module Report {
  import opened Wrappers
  import opened Text
  import opened Dicts

  type Email = string

  /**
   * One breach object of the API's JSON answer. Each field may be missing from the
   * object, hence the `Option`s.
   */
  datatype Breach = Breach(
    name: Option<string>,
    title: Option<string>,
    domain: Option<string>,
    breachDate: Option<string>,
    pwnCount: Option<nat>,
    dataClasses: Option<seq<string>>,
    isVerified: Option<bool>,
    isSensitive: Option<bool>)

  /**
   * What one lookup returns: the list of breaches (empty for a 404), or `None` for an
   * authentication failure or any other unexpected status.
   */
  type LookupResult = Option<seq<Breach>>

  /** One report row: the nine columns of the exported table, in order. */
  datatype Row = Row(
    email: string,
    breachName: string,
    title: string,
    domain: string,
    breachDate: string,
    accounts: string,
    dataClasses: string,
    verified: string,
    sensitive: string)

  const UNKNOWN := "Desconocido"
  const UNKNOWN_DATE := "Desconocida"
  const NOT_COMPROMISED := "No comprometido"
  const DASH := "-"
  const YES := "Sí"
  const NO := "No"

  /** Python truthiness of a lookup result: only a non-empty list is true. */
  predicate Truthy(r: LookupResult) {
    r.Some? && |r.value| > 0
  }

  /** `'Sí' if flag else 'No'`, with a missing flag read as `False`. */
  function YesNo(flag: Option<bool>): (s: string)
    ensures s == YES <==> flag == Some(true)
    ensures s == NO <==> flag != Some(true)
  {
    if flag.GetOr(false) then YES else NO
  }

  /** The row for one breach of `email`, each missing field replaced by its default. */
  function BreachRow(email: Email, b: Breach): Row
  {
    Row(
      email,
      b.name.GetOr(UNKNOWN),
      b.title.GetOr(UNKNOWN),
      b.domain.GetOr(UNKNOWN),
      b.breachDate.GetOr(UNKNOWN_DATE),
      if b.pwnCount.Some? then NatToString(b.pwnCount.value) else UNKNOWN,
      Join(b.dataClasses.GetOr([UNKNOWN])),
      YesNo(b.isVerified),
      YesNo(b.isSensitive))
  }

  /**
   * Each column of a breach row: the email, every present field as given and every
   * missing one as its default, the count as digits that read back as the count, and
   * the flags as "Sí" exactly when true (never "-").
   */
  lemma BreachRowColumns(email: Email, b: Breach)
    ensures var row := BreachRow(email, b);
      && row.email == email
      && row.breachName == (if b.name.Some? then b.name.value else UNKNOWN)
      && row.title == (if b.title.Some? then b.title.value else UNKNOWN)
      && row.domain == (if b.domain.Some? then b.domain.value else UNKNOWN)
      && row.breachDate == (if b.breachDate.Some? then b.breachDate.value else UNKNOWN_DATE)
      && (b.dataClasses.None? ==> row.dataClasses == UNKNOWN)
      && (b.dataClasses.Some? ==> row.dataClasses == Join(b.dataClasses.value))
      && (row.accounts == UNKNOWN <==> b.pwnCount.None?)
      && (b.pwnCount.Some? ==> ParseNat(row.accounts) == b.pwnCount)
      && (row.verified == YES <==> b.isVerified == Some(true))
      && (row.sensitive == YES <==> b.isSensitive == Some(true))
      && row.verified != DASH && row.sensitive != DASH
  {
    if b.pwnCount.Some? {
      ParseNatToString(b.pwnCount.value);
    }
  }

  /** The single row written for an email whose result is falsy (`[]` or `None`). */
  function Placeholder(email: Email): (row: Row)
  {
    Row(email, NOT_COMPROMISED, DASH, DASH, DASH, DASH, DASH, DASH, DASH)
  }

  /** How many rows one lookup result contributes: `max(1, len(breaches))`. */
  function RowCount(r: LookupResult): nat {
    if r.Some? && |r.value| > 1 then |r.value| else 1
  }

  /** One breach row per breach of `breaches`, in order. */
  function BreachRows(email: Email, breaches: seq<Breach>): seq<Row>
  {
    seq(|breaches|, k requires 0 <= k < |breaches| => BreachRow(email, breaches[k]))
  }

  lemma BreachRowsSnoc(email: Email, breaches: seq<Breach>, j: nat)
    requires j < |breaches|
    ensures BreachRows(email, breaches[..j + 1]) == BreachRows(email, breaches[..j]) + [BreachRow(email, breaches[j])]
  {
  }

  /** One more iteration of the inner `append` loop, after the rows `before`. */
  lemma BreachRowsExtend(before: seq<Row>, email: Email, breaches: seq<Breach>, j: nat)
    requires j < |breaches|
    ensures (before + BreachRows(email, breaches[..j])) + [BreachRow(email, breaches[j])]
         == before + BreachRows(email, breaches[..j + 1])
  {
    BreachRowsSnoc(email, breaches, j);
  }

  /** The rows for one email: `if brechas:` one row per breach, `else:` the placeholder. */
  function RowsFor(email: Email, r: LookupResult): seq<Row>
  {
    if Truthy(r) then BreachRows(email, r.value) else [Placeholder(email)]
  }

  /**
   * A truthy list of K breaches gives K rows in list order; a falsy result gives only
   * the placeholder; every row carries the email.
   */
  lemma RowsForShape(email: Email, r: LookupResult)
    ensures |RowsFor(email, r)| == RowCount(r)
    ensures forall k :: 0 <= k < |RowsFor(email, r)| ==> RowsFor(email, r)[k].email == email
    ensures Truthy(r) ==> forall k :: 0 <= k < |RowsFor(email, r)| ==> RowsFor(email, r)[k] == BreachRow(email, r.value[k])
    ensures !Truthy(r) ==> RowsFor(email, r) == [Placeholder(email)]
  {
  }

  /** The rows for a sequence of (email, result) items, item after item. */
  function Flatten(items: seq<(Email, LookupResult)>): seq<Row>
  {
    if |items| == 0 then []
    else Flatten(items[..|items| - 1]) + RowsFor(items[|items| - 1].0, items[|items| - 1].1)
  }

  /** The sum over the items of `max(1, len(breaches))`. */
  function TotalRows(items: seq<(Email, LookupResult)>): nat
  {
    if |items| == 0 then 0 else TotalRows(items[..|items| - 1]) + RowCount(items[|items| - 1].1)
  }

  /** `procesar_resultados`: the report rows of a result mapping, in its iteration order. */
  method ProcessResults(results: Dict<Email, LookupResult>) returns (rows: seq<Row>)
    requires results.Valid()
    ensures rows == Flatten(results.Items())
  {
    var items := results.Items();
    rows := [];
    for i := 0 to |items|
      invariant rows == Flatten(items[..i])
    {
      var email, breaches := items[i].0, items[i].1;
      FlattenStep(items, i);
      ghost var before := rows;
      if breaches.Some? && |breaches.value| > 0 {
        var list := breaches.value;
        for j := 0 to |list|
          invariant rows == before + BreachRows(email, list[..j])
        {
          BreachRowsExtend(before, email, list, j);
          rows := rows + [BreachRow(email, list[j])];
        }
        assert list[..|list|] == list;
      } else {
        rows := rows + [Placeholder(email)];
      }
      assert rows == before + RowsFor(email, breaches);
    }
    assert items[..|items|] == items;
  }

  /** Flattening one more item appends that item's rows. */
  lemma FlattenStep(items: seq<(Email, LookupResult)>, i: nat)
    requires i < |items|
    ensures Flatten(items[..i + 1]) == Flatten(items[..i]) + RowsFor(items[i].0, items[i].1)
  {
    assert items[..i + 1][..i] == items[..i];
  }

  /** The report has `max(1, len(breaches))` rows per entry. */
  lemma {:induction false} FlattenLength(items: seq<(Email, LookupResult)>)
    ensures |Flatten(items)| == TotalRows(items)
  {
    if |items| > 0 {
      FlattenLength(items[..|items| - 1]);
      RowsForShape(items[|items| - 1].0, items[|items| - 1].1);
    }
  }

  /** The rows of consecutive runs of entries are concatenated in order. */
  lemma {:induction false} FlattenAppend(a: seq<(Email, LookupResult)>, b: seq<(Email, LookupResult)>)
    ensures Flatten(a + b) == Flatten(a) + Flatten(b)
    decreases |b|
  {
    if |b| == 0 {
      assert a + b == a;
    } else {
      var init, last := b[..|b| - 1], b[|b| - 1];
      var ab := a + b;
      DropLastAppend(a, b);
      assert ab[|ab| - 1] == last;
      var block := RowsFor(last.0, last.1);
      assert Flatten(ab) == Flatten(a + init) + block;
      assert Flatten(b) == Flatten(init) + block;
      FlattenAppend(a, init);
      AppendAssoc(Flatten(a), Flatten(init), block);
    }
  }

  lemma AppendAssoc(x: seq<Row>, y: seq<Row>, z: seq<Row>)
    ensures (x + y) + z == x + (y + z)
  {
  }

  lemma DropLastAppend(a: seq<(Email, LookupResult)>, b: seq<(Email, LookupResult)>)
    requires |b| > 0
    ensures (a + b)[..|a + b| - 1] == a + b[..|b| - 1]
  {
    var l, r := (a + b)[..|a + b| - 1], a + b[..|b| - 1];
    assert |l| == |r|;
    forall i | 0 <= i < |l| ensures l[i] == r[i] {
      if i < |a| {
        assert l[i] == a[i];
      } else {
        assert l[i] == b[i - |a|];
      }
    }
  }

  /**
   * The rows of entry `i` form one contiguous block, after the rows of all earlier
   * entries and before the rows of all later ones.
   */
  lemma EntryRowsContiguous(items: seq<(Email, LookupResult)>, i: nat)
    requires i < |items|
    ensures Flatten(items) == Flatten(items[..i]) + RowsFor(items[i].0, items[i].1) + Flatten(items[i + 1..])
  {
    var pre, entry, post := items[..i], items[i], items[i + 1..];
    SplitItems(items, i);
    FlattenAppend(pre + [entry], post);
    FlattenAppend(pre, [entry]);
    FlattenSingle(entry);
  }

  lemma SplitItems(items: seq<(Email, LookupResult)>, i: nat)
    requires i < |items|
    ensures items == (items[..i] + [items[i]]) + items[i + 1..]
  {
    var r := (items[..i] + [items[i]]) + items[i + 1..];
    assert |r| == |items|;
    forall k | 0 <= k < |items| ensures r[k] == items[k] {
      if k < i {
        assert r[k] == items[..i][k];
      } else if k > i {
        assert r[k] == items[i + 1..][k - i - 1];
      }
    }
  }

  lemma FlattenSingle(entry: (Email, LookupResult))
    ensures Flatten([entry]) == RowsFor(entry.0, entry.1)
  {
    assert [entry][..0] == [];
  }

  /** The set of emails appearing in some rows. */
  ghost function RowEmails(rows: seq<Row>): set<Email> {
    set row | row in rows :: row.email
  }

  /** The set of keys of some items. */
  ghost function Keys(items: seq<(Email, LookupResult)>): set<Email> {
    set item | item in items :: item.0
  }

  lemma RowEmailsAppend(a: seq<Row>, b: seq<Row>)
    ensures RowEmails(a + b) == RowEmails(a) + RowEmails(b)
  {
  }

  lemma KeysSnoc(items: seq<(Email, LookupResult)>, item: (Email, LookupResult))
    ensures Keys(items + [item]) == Keys(items) + {item.0}
  {
  }

  lemma BlockEmails(email: Email, r: LookupResult)
    ensures RowEmails(RowsFor(email, r)) == {email}
  {
    var rs := RowsFor(email, r);
    RowsForShape(email, r);
    assert rs[0] in rs;
    forall x | x in RowEmails(rs) ensures x == email {
      var row :| row in rs && row.email == x;
    }
  }

  lemma DropLast(items: seq<(Email, LookupResult)>)
    requires |items| > 0
    ensures items == items[..|items| - 1] + [items[|items| - 1]]
  {
  }

  /** Every entry yields at least one row, and every row belongs to some entry. */
  lemma {:induction false} FlattenEmails(items: seq<(Email, LookupResult)>)
    ensures RowEmails(Flatten(items)) == Keys(items)
  {
    if |items| > 0 {
      var init, last := items[..|items| - 1], items[|items| - 1];
      FlattenEmails(init);
      BlockEmails(last.0, last.1);
      RowEmailsAppend(Flatten(init), RowsFor(last.0, last.1));
      DropLast(items);
      KeysSnoc(init, last);
    }
  }

  /**
   * An authentication failure (`None`) and an answer with no breaches (`[]`) give the
   * same report rows.
   */
  lemma FailureLooksClean(email: Email)
    ensures RowsFor(email, None) == RowsFor(email, Some([])) == [Placeholder(email)]
  {
  }

  /**
   * In a report, a row is a placeholder exactly when its "Es verificado" column is "-":
   * that column is always "Sí" or "No" on a breach row.
   */
  lemma {:induction false} PlaceholderIffDash(items: seq<(Email, LookupResult)>, j: nat)
    requires j < |Flatten(items)|
    ensures Flatten(items)[j].verified == DASH <==> Flatten(items)[j] == Placeholder(Flatten(items)[j].email)
  {
    var init := items[..|items| - 1];
    var last := items[|items| - 1];
    if j >= |Flatten(init)| {
      var k := j - |Flatten(init)|;
      RowsForShape(last.0, last.1);
      assert Flatten(items)[j] == RowsFor(last.0, last.1)[k];
      if Truthy(last.1) {
        BreachRowColumns(last.0, last.1.value[k]);
      }
    } else {
      assert Flatten(items)[j] == Flatten(init)[j];
      PlaceholderIffDash(init, j);
    }
  }

  /**
   * The "Datos comprometidos" column of a breach row reads back, split at ", ", as the
   * breach's data classes, when that list is non-empty and free of commas.
   */
  lemma DataClassesReadBack(email: Email, b: Breach)
    requires b.dataClasses.Some? && |b.dataClasses.value| > 0
    requires forall k :: 0 <= k < |b.dataClasses.value| ==> ',' !in b.dataClasses.value[k]
    ensures Split(BreachRow(email, b).dataClasses) == b.dataClasses.value
  {
    SplitJoin(b.dataClasses.value);
  }
}
