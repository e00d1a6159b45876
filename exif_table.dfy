/** The scan results table (`path -> has_tag`, kept in insertion order like a
    Python dict) and the rows it projects into the on-screen table. */
module ExifTable {
  import opened Paths

  /** One table entry: an image path and whether it carries the filter tag. */
  type Entry = (string, bool)

  /** One row of the on-screen table: the file name and the "Has EXIF Tag"
      label. */
  datatype Row = Row(filename: string, tagCell: string)

  function Keys(d: seq<Entry>): seq<string> {
    seq(|d|, i requires 0 <= i < |d| => d[i].0)
  }

  predicate DistinctKeys(d: seq<Entry>) {
    forall i, j :: 0 <= i < j < |d| ==> d[i].0 != d[j].0
  }

  /** Position of the entry for `path`, or `|d|` when there is none. */
  function IndexOf(d: seq<Entry>, path: string): (i: nat)
    ensures i <= |d|
    ensures i < |d| ==> d[i].0 == path
    ensures forall j :: 0 <= j < i ==> d[j].0 != path
  {
    if d == [] then 0
    else if d[0].0 == path then 0
    else 1 + IndexOf(d[1..], path)
  }

  /** Dictionary assignment `d[path] = has`. */
  function Put(d: seq<Entry>, path: string, has: bool): seq<Entry> {
    var i := IndexOf(d, path);
    if i < |d| then d[i := (path, has)] else d + [(path, has)]
  }

  /** An existing key keeps its place and takes the new value; a new key
      goes to the end; every other entry stays where it was; a table
      without repeated keys keeps that property. */
  lemma PutMeaning(d: seq<Entry>, path: string, has: bool)
    ensures path in Keys(d) ==> Keys(Put(d, path, has)) == Keys(d)
    ensures path !in Keys(d) ==> Put(d, path, has) == d + [(path, has)]
    ensures (path, has) in Put(d, path, has)
    ensures forall j :: 0 <= j < |d| && d[j].0 != path ==> Put(d, path, has)[j] == d[j]
    ensures forall e :: e in Put(d, path, has) && e.0 != path ==> e in d
    ensures DistinctKeys(d) ==> DistinctKeys(Put(d, path, has))
  {
    var i := IndexOf(d, path);
    if i < |d| {
      assert Keys(d)[i] == path;
      assert Keys(d[i := (path, has)]) == Keys(d);
    } else {
      assert path !in Keys(d) by {
        forall j | 0 <= j < |d| ensures Keys(d)[j] != path { }
      }
      assert Keys(d + [(path, has)]) == Keys(d) + [path];
    }
  }

  /** Assign every entry of `es`, in order. */
  function PutAll(d: seq<Entry>, es: seq<Entry>): seq<Entry> {
    if es == [] then d
    else
      var last := es[|es| - 1];
      Put(PutAll(d, es[..|es| - 1]), last.0, last.1)
  }

  /** However many assignments, no key is ever held twice. */
  lemma {:induction false} PutAllDistinct(d: seq<Entry>, es: seq<Entry>)
    requires DistinctKeys(d)
    ensures DistinctKeys(PutAll(d, es))
  {
    if es != [] {
      var last := es[|es| - 1];
      PutAllDistinct(d, es[..|es| - 1]);
      PutMeaning(PutAll(d, es[..|es| - 1]), last.0, last.1);
    }
  }

  /** Filling a table with entries whose keys are new and pairwise distinct
      appends them in order: one entry per path, nothing merged or moved. */
  lemma {:induction false} PutAllFresh(d: seq<Entry>, es: seq<Entry>)
    requires DistinctKeys(d + es)
    ensures PutAll(d, es) == d + es
  {
    if es != [] {
      var init, last := es[..|es| - 1], es[|es| - 1];
      assert d + es == (d + init) + [last];
      assert DistinctKeys(d + init) by {
        forall i, j | 0 <= i < j < |d + init| ensures (d + init)[i].0 != (d + init)[j].0 {
          assert (d + init)[i] == (d + es)[i] && (d + init)[j] == (d + es)[j];
        }
      }
      PutAllFresh(d, init);
      PutMeaning(d + init, last.0, last.1);
      assert last.0 !in Keys(d + init) by {
        forall i | 0 <= i < |d + init| ensures (d + init)[i].0 != last.0 {
          assert (d + init)[i] == (d + es)[i];
          assert last == (d + es)[|d + es| - 1];
        }
      }
    }
  }

  /** Whether an entry is listed: with the filter on only entries without the
      tag, with it off every entry. */
  predicate Shown(e: Entry, filtered: bool) {
    !filtered || !e.1
  }

  /** The "Has EXIF Tag" cell. */
  function Label(has: bool, filtered: bool): (r: string)
    ensures r == "Yes" <==> !filtered && has
    ensures r == "Yes" || r == "No"
  {
    if filtered then "No" else if has then "Yes" else "No"
  }

  /** The row shown for an entry: its file name, which is the path's last
      component, and its label. */
  function RowOf(e: Entry, filtered: bool): (r: Row)
    ensures r.tagCell == "Yes" <==> !filtered && e.1
  {
    Row(Basename(e.0), Label(e.1, filtered))
  }

  /** One row per entry, in order, whatever the filter says. */
  function Rows(es: seq<Entry>, filtered: bool): seq<Row> {
    seq(|es|, i requires 0 <= i < |es| => RowOf(es[i], filtered))
  }

  /** The entries the table shows, in insertion order. */
  function ViewEntries(d: seq<Entry>, filtered: bool): (r: seq<Entry>)
    ensures |r| <= |d|
    ensures forall i :: 0 <= i < |r| ==> Shown(r[i], filtered)
  {
    if d == [] then []
    else (if Shown(d[0], filtered) then [d[0]] else []) + ViewEntries(d[1..], filtered)
  }

  /** The rows of the table after it is rebuilt from the results. */
  function View(d: seq<Entry>, filtered: bool): (r: seq<Row>)
    ensures |r| <= |d|
    ensures filtered ==> forall i :: 0 <= i < |r| ==> r[i].tagCell == "No"
  {
    Rows(ViewEntries(d, filtered), filtered)
  }

  /** An entry is shown exactly when it is in the results and passes the
      filter. */
  lemma {:induction false} ViewEntriesMembership(d: seq<Entry>, filtered: bool, e: Entry)
    ensures e in ViewEntries(d, filtered) <==> e in d && Shown(e, filtered)
  {
    if d != [] {
      ViewEntriesMembership(d[1..], filtered, e);
      assert d == [d[0]] + d[1..];
    }
  }

  /** Projection keeps the order of the results: it distributes over
      concatenation. */
  lemma {:induction false} ViewEntriesAppend(a: seq<Entry>, b: seq<Entry>, filtered: bool)
    ensures ViewEntries(a + b, filtered) == ViewEntries(a, filtered) + ViewEntries(b, filtered)
  {
    if a != [] {
      assert (a + b)[1..] == a[1..] + b;
      ViewEntriesAppend(a[1..], b, filtered);
    } else {
      assert a + b == b;
    }
  }

  /** With the filter off every entry is shown, in insertion order. */
  lemma {:induction false} ViewUnfilteredShowsAll(d: seq<Entry>)
    ensures ViewEntries(d, false) == d
  {
    if d != [] {
      ViewUnfilteredShowsAll(d[1..]);
    }
  }

  /** With the filter on no shown entry has the tag, and so every label
      reads "No"; with it off a label reads "Yes" exactly when the entry has
      the tag. */
  lemma ViewLabels(d: seq<Entry>, filtered: bool)
    ensures filtered ==> forall r :: r in View(d, filtered) ==> r.tagCell == "No"
    ensures filtered ==> forall e :: e in ViewEntries(d, filtered) ==> !e.1
    ensures !filtered ==> |View(d, filtered)| == |d|
    ensures !filtered ==> forall i :: 0 <= i < |d| ==> View(d, filtered)[i] == Row(Basename(d[i].0), if d[i].1 then "Yes" else "No")
  {
    forall e | e in ViewEntries(d, filtered) ensures filtered ==> !e.1 {
      ViewEntriesMembership(d, filtered, e);
    }
    if !filtered {
      ViewUnfilteredShowsAll(d);
    }
  }
}
