/** How the pieces meet: a lookup's outcome flows into the report rows. */
module Pipeline {
  import opened Wrappers
  import opened Dicts
  import opened Report
  import opened Client

  /**
   * An address whose lookup ends in a 404 (after any number of readable 429 answers)
   * is reported as one "No comprometido" row with "-" in every other column.
   */
  lemma NotFoundGivesPlaceholderRow(email: Email, script: seq<Response>, k: nat)
    requires k < |script| && RetriesFirst(script, k) && script[k].status == 404
    ensures Replay(script).end == Returned(Some([]))
    ensures Flatten(Empty<Email, LookupResult>().Set(email, Replay(script).end.result).Items())
         == [Row(email, NOT_COMPROMISED, DASH, DASH, DASH, DASH, DASH, DASH, DASH)]
  {
    FirstFinalAnswerDecides(script, k);
    NotFoundRow(email);
  }

  /** The report of a one-address dict whose value is `[]`. */
  lemma NotFoundRow(email: Email)
    ensures Flatten(Empty<Email, LookupResult>().Set(email, Some([])).Items())
         == [Row(email, NOT_COMPROMISED, DASH, DASH, DASH, DASH, DASH, DASH, DASH)]
  {
    var d := Empty<Email, LookupResult>().Set(email, Some([]));
    assert d == Dict([email], map[email := Some([])]);
    var items := d.Items();
    assert items == [(email, Some([]))];
    assert items[..0] == [];
  }

  /**
   * An address whose lookup ends in a 401 is reported exactly like one with no
   * breaches: the report cannot tell an authentication failure from a clean address.
   */
  lemma AuthFailureReportedAsClean(email: Email, script: seq<Response>, k: nat)
    requires k < |script| && RetriesFirst(script, k) && script[k].status == 401
    ensures Replay(script).end == Returned(None)
    ensures RowsFor(email, Replay(script).end.result) == RowsFor(email, Some([]))
  {
    FirstFinalAnswerDecides(script, k);
  }
}
