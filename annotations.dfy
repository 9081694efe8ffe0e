/**
 * The normalised diagnostic record every parser produces, and what a parser run
 * ends with: every Python generator here either runs to its end or raises an
 * uncaught `ValueError` after handing some records to its consumer.
 */
module Annotations {

  /** The severities a CI annotation can carry (`LEVELS`). */
  const LEVELS: set<string> := {"notice", "warning", "error"}

  /** `Annotation(level, file, line, column, source, title, message)`, fields in call-site order. */
  datatype Annotation = Annotation(
    level: string,
    file: string,
    line: int,
    column: int,
    source: string,
    title: string,
    message: string)

  /** The records a generator yielded, and whether it then ran off its end or raised. */
  datatype Yielded = Finished(records: seq<Annotation>) | Raised(records: seq<Annotation>)

  /**
   * `yield from a` followed by `yield from b`: `b` runs only when `a` finished, and
   * a raise in either stops the whole generator.
   */
  function Then(a: Yielded, b: Yielded): (r: Yielded)
    ensures r.Raised? <==> a.Raised? || b.Raised?
    ensures a.Raised? ==> r == a
    ensures a.Finished? ==> r.records == a.records + b.records
  {
    if a.Raised? then a
    else if b.Raised? then Raised(a.records + b.records)
    else Finished(a.records + b.records)
  }

  /** Sequencing generators does not depend on how the sequence is grouped. */
  lemma ThenAssociative(a: Yielded, b: Yielded, c: Yielded)
    ensures Then(Then(a, b), c) == Then(a, Then(b, c))
  {
    if a.Finished? && b.Finished? {
      assert (a.records + b.records) + c.records == a.records + (b.records + c.records);
    }
  }

  /** Two finished runs in front of a third are one finished run of their records. */
  lemma ThenFinished(a: seq<Annotation>, b: seq<Annotation>, c: Yielded)
    ensures Then(Finished(a), Then(Finished(b), c)) == Then(Finished(a + b), c)
  {
    ThenAssociative(Finished(a), Finished(b), c);
  }
}
