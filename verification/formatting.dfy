/** Two small text helpers of the pipeline: the html list of links in its
    hipchat messages (`_list_with_links`) and the major part of an
    appengine version id (`_current_gae_version`). */
module Formatting {
  import opened Text

  // ---------------------------------------------------------------------
  // links, five to a row

  const RowWidth := 5
  const CellSeparator := " ~ "
  const RowSeparator := "<br>\n"

  /** One `<a href="url">title</a>` anchor. */
  function Link(title: string, url: string): string
  {
    "<a href=\"" + url + "\">" + title + "</a>"
  }

  /** The rows in order, end to end. */
  function Flatten<T>(rows: seq<seq<T>>): seq<T>
  {
    if |rows| == 0 then [] else rows[0] + Flatten(rows[1..])
  }

  /** `xs[i:i+5]` for i = 0, 5, 10, ... */
  function Rows<T>(xs: seq<T>): seq<seq<T>>
    decreases |xs|
  {
    if |xs| == 0 then []
    else if |xs| <= RowWidth then [xs]
    else [xs[..RowWidth]] + Rows(xs[RowWidth..])
  }

  /** The rows put end to end give the items back, every row holds one to
      five items, and only the last may hold fewer than five. */
  lemma {:induction false} RowsShape<T>(xs: seq<T>)
    ensures Flatten(Rows(xs)) == xs
    ensures forall i :: 0 <= i < |Rows(xs)| ==> 0 < |Rows(xs)[i]| <= RowWidth
    ensures forall i :: 0 <= i < |Rows(xs)| - 1 ==> |Rows(xs)[i]| == RowWidth
    decreases |xs|
  {
    if |xs| > RowWidth {
      var rest := Rows(xs[RowWidth..]);
      RowsShape(xs[RowWidth..]);
      assert Rows(xs) == [xs[..RowWidth]] + rest;
      assert Rows(xs)[1..] == rest;
      assert xs == xs[..RowWidth] + xs[RowWidth..];
      forall i | 1 <= i < |Rows(xs)|
        ensures Rows(xs)[i] == rest[i - 1]
      {
      }
    }
  }

  /** There are ceil(n / 5) rows for n items. */
  lemma {:induction false} RowCount<T>(xs: seq<T>)
    ensures |Rows(xs)| == (|xs| + RowWidth - 1) / RowWidth
    decreases |xs|
  {
    if |xs| > RowWidth {
      RowCount(xs[RowWidth..]);
    }
  }

  /** The rows from item `i` on: the row `xs[i:i+5]`, then the rows from
      the item after it. */
  lemma RowsAt<T>(xs: seq<T>, i: nat, end: nat)
    requires i < end <= |xs|
    requires end == if i + RowWidth <= |xs| then i + RowWidth else |xs|
    ensures Rows(xs[i..]) == [xs[i..end]] + Rows(xs[end..])
  {
    var rest := xs[i..];
    if |rest| > RowWidth {
      assert rest[..RowWidth] == xs[i..end];
      assert rest[RowWidth..] == xs[end..];
    } else {
      assert rest == xs[i..end];
      assert xs[end..] == [];
    }
  }

  /** The loop of `_list_with_links`: rows of five, taken with a step of
      five over the input. */
  method ChunkRows<T>(xs: seq<T>) returns (rows: seq<seq<T>>)
    ensures rows == Rows(xs)
  {
    rows := [];
    var i := 0;
    while i < |xs|
      invariant i <= |xs|
      invariant rows + Rows(xs[i..]) == Rows(xs)
      decreases |xs| - i
    {
      var end := if i + RowWidth <= |xs| then i + RowWidth else |xs|;
      RowsAt(xs, i, end);
      assert rows + Rows(xs[i..]) == (rows + [xs[i..end]]) + Rows(xs[end..]);
      rows := rows + [xs[i..end]];
      i := end;
    }
    assert xs[i..] == [];
  }

  /** One row of the list: its links joined by " ~ ". */
  function RowText(row: seq<(string, string)>): string
  {
    Join(seq(|row|, k requires 0 <= k < |row| => Link(row[k].0, row[k].1)), CellSeparator)
  }

  /** The text of each row, in order. */
  function RowTexts(rows: seq<seq<(string, string)>>): (texts: seq<string>)
    ensures |texts| == |rows|
  {
    if |rows| == 0 then [] else [RowText(rows[0])] + RowTexts(rows[1..])
  }

  /** `_list_with_links(title_url_pairs)`: the rows joined by "<br>\n".
      Up to five pairs make a single row; beyond that the first five form
      the first row and the rest follow after a line break. */
  function ListWithLinks(pairs: seq<(string, string)>): (html: string)
    ensures |pairs| == 0 ==> html == ""
    ensures 0 < |pairs| <= RowWidth ==> html == RowText(pairs)
    ensures |pairs| > RowWidth ==>
      html == RowText(pairs[..RowWidth]) + RowSeparator + ListWithLinks(pairs[RowWidth..])
  {
    var texts := RowTexts(Rows(pairs));
    if |pairs| > RowWidth then
      var rest := Rows(pairs[RowWidth..]);
      assert Rows(pairs) == [pairs[..RowWidth]] + rest;
      assert ([pairs[..RowWidth]] + rest)[1..] == rest;
      assert texts == [RowText(pairs[..RowWidth])] + RowTexts(rest);
      assert ([RowText(pairs[..RowWidth])] + RowTexts(rest))[1..] == RowTexts(rest);
      Join(texts, RowSeparator)
    else
      Join(texts, RowSeparator)
  }

  // ---------------------------------------------------------------------
  // versions

  /** `version_id.split('.')[0]`: appengine reports `<major>.<minor>` and
      the pipeline keeps only the major part. */
  function MajorVersion(versionId: string): (major: string)
    ensures major == Split(versionId, '.')[0]
    ensures '.' !in major && major <= versionId
  {
    BeforeFirst(versionId, '.')
  }

  /** The major part of `<major>.<minor>` is `<major>` whatever the minor
      part holds. */
  lemma MajorOfVersionId(major: string, minor: string)
    requires '.' !in major
    ensures MajorVersion(major + "." + minor) == major
  {
    IndexAfterPrefix(major, minor, '.');
    assert (major + "." + minor)[..|major|] == major;
  }

  /** A version id without a dot is all major part. */
  lemma MajorOfPlainVersion(versionId: string)
    requires '.' !in versionId
    ensures MajorVersion(versionId) == versionId
  {
  }
}
