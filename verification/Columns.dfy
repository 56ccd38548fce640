/** What a text column keeps of a text. SQLite's `text` keeps any; PostgreSQL's
    `varchar(n)` keeps up to n characters (migrations/postgres). */
module Columns {
  import opened Identifiers
  import opened Text

  /** The n of `varchar(n)`; None is `text` in SQLite. */
  type Limit = Option<nat>

  predicate Blanks(s: string) {
    forall i :: 0 <= i < |s| ==> s[i] == ' '
  }

  /** The column keeps the text as it is. PostgreSQL has no character zero in texts. */
  predicate Fits(limit: Limit, text: string) {
    limit.None? || (|text| <= limit.value && '\0' !in text)
  }

  /** What the column keeps, or None when the statement fails. A text that is too long
      only by blanks is cut, as the SQL standard has it. */
  function Stored(limit: Limit, text: string): Option<string> {
    if Fits(limit, text) then Some(text)
    else if |text| > limit.value && Blanks(text[limit.value..]) && '\0' !in text then Some(text[..limit.value])
    else None
  }

  /** What was kept is kept again. */
  lemma StoredFits(limit: Limit, text: string)
    ensures Stored(limit, text).Some? ==> Fits(limit, Stored(limit, text).value)
    ensures Stored(limit, text) == Some(text) <==> Fits(limit, text)
  {
  }

  /** A trimmed text is kept as it is or not at all. */
  lemma TrimmedIsNotCut(limit: Limit, text: string)
    requires Trimmed(text)
    ensures Stored(limit, text) == if Fits(limit, text) then Some(text) else None
  {
    assert limit.Some? && |text| > limit.value ==> text[limit.value..][|text| - 1 - limit.value] == text[|text| - 1];
  }

  /** What the column keeps of a text that it can keep. */
  function Kept(limit: Limit, text: string): string {
    if Stored(limit, text).Some? then Stored(limit, text).value else text
  }
}
