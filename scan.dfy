/** What one scan of a folder produces: the image paths kept from a
    directory listing, the `(path, has_tag)` results in scan order, the queue
    items the producer emits, and the rows the consumer appends. */
module Scan {
  import opened Wrappers
  import opened Paths
  import opened Exif
  import opened ExifTable

  predicate Distinct(s: seq<string>) {
    forall i, j :: 0 <= i < j < |s| ==> s[i] != s[j]
  }

  /** Directory entries are plain names: none contains a separator. */
  predicate PlainNames(listing: seq<string>) {
    forall i :: 0 <= i < |listing| ==> '/' !in listing[i]
  }

  /** The listed names that pass the extension test, in listing order. */
  function KeptNames(listing: seq<string>): (kept: seq<string>)
    ensures |kept| <= |listing|
    ensures forall i :: 0 <= i < |kept| ==> IsImageName(kept[i])
  {
    if listing == [] then []
    else (if IsImageName(listing[0]) then [listing[0]] else []) + KeptNames(listing[1..])
  }

  /** The image paths a folder load produces: the folder joined with each
      kept name. */
  function ImagePaths(folder: string, listing: seq<string>): seq<string> {
    var kept := KeptNames(listing);
    seq(|kept|, i requires 0 <= i < |kept| => Join(folder, kept[i]))
  }

  /** A name is kept exactly when it is listed and passes the extension
      test. */
  lemma {:induction false} KeptNamesMembership(listing: seq<string>, name: string)
    ensures name in KeptNames(listing) <==> name in listing && IsImageName(name)
  {
    if listing != [] {
      KeptNamesMembership(listing[1..], name);
      assert listing == [listing[0]] + listing[1..];
    }
  }

  /** Filtering keeps the listing order: it distributes over
      concatenation. */
  lemma {:induction false} KeptNamesAppend(a: seq<string>, b: seq<string>)
    ensures KeptNames(a + b) == KeptNames(a) + KeptNames(b)
  {
    if a == [] {
      assert a + b == b;
    } else {
      assert (a + b)[1..] == a[1..] + b;
      KeptNamesAppend(a[1..], b);
    }
  }

  /** A listing without repeated names gives kept names without repeats. */
  lemma {:induction false} KeptNamesDistinct(listing: seq<string>)
    requires Distinct(listing)
    ensures Distinct(KeptNames(listing))
  {
    if listing != [] {
      var rest := KeptNames(listing[1..]);
      KeptNamesDistinct(listing[1..]);
      KeptNamesMembership(listing[1..], listing[0]);
      assert listing[0] !in listing[1..] by {
        forall j | 0 <= j < |listing[1..]| ensures listing[1..][j] != listing[0] {
          assert listing[1..][j] == listing[j + 1];
        }
      }
    }
  }

  /** `images` after a load: one path per kept name, in listing order, whose
      file name is that kept name; a path for a name is present exactly when
      the name is listed and passes the extension test; a listing without
      repeats gives paths without repeats. */
  lemma ImagePathsExact(folder: string, listing: seq<string>)
    requires PlainNames(listing)
    ensures |ImagePaths(folder, listing)| == |KeptNames(listing)|
    ensures forall i :: 0 <= i < |ImagePaths(folder, listing)| ==>
      Basename(ImagePaths(folder, listing)[i]) == KeptNames(listing)[i]
    ensures forall name :: '/' !in name ==>
      (Join(folder, name) in ImagePaths(folder, listing) <==> name in listing && IsImageName(name))
    ensures Distinct(listing) ==> Distinct(ImagePaths(folder, listing))
  {
    var kept, paths := KeptNames(listing), ImagePaths(folder, listing);
    forall name | name in kept ensures '/' !in name {
      KeptNamesMembership(listing, name);
    }
    forall i | 0 <= i < |paths| ensures Basename(paths[i]) == kept[i] {
      BasenameOfJoin(folder, kept[i]);
    }
    forall name | '/' !in name
      ensures Join(folder, name) in paths <==> name in listing && IsImageName(name)
    {
      KeptNamesMembership(listing, name);
      if Join(folder, name) in paths {
        var i :| 0 <= i < |paths| && paths[i] == Join(folder, name);
        JoinInjective(folder, name, kept[i]);
      }
      if name in kept {
        var i :| 0 <= i < |kept| && kept[i] == name;
        assert paths[i] == Join(folder, name);
      }
    }
    if Distinct(listing) {
      KeptNamesDistinct(listing);
      forall i, j | 0 <= i < j < |paths| ensures paths[i] != paths[j] {
        JoinInjective(folder, kept[i], kept[j]);
      }
    }
  }

  /** The results a scan records, in `images` order: each path with the
      answer of the tag test on what opening it yields. */
  function ScanEntries(images: seq<string>, disk: map<string, ExifRead>,
                       tagNames: map<int, string>, tag: string): seq<Entry> {
    seq(|images|, i requires 0 <= i < |images| =>
      (images[i], HasExifTag(ReadAt(disk, images[i]), tagNames, tag)))
  }

  /** Filling the emptied results table from a scan of distinct paths gives
      exactly one entry per image, in `images` order. */
  lemma ScanTableExact(images: seq<string>, disk: map<string, ExifRead>,
                       tagNames: map<int, string>, tag: string)
    requires Distinct(images)
    ensures PutAll([], ScanEntries(images, disk, tagNames, tag)) == ScanEntries(images, disk, tagNames, tag)
    ensures Keys(PutAll([], ScanEntries(images, disk, tagNames, tag))) == images
  {
    var es := ScanEntries(images, disk, tagNames, tag);
    assert forall i :: 0 <= i < |es| ==> es[i].0 == images[i];
    assert Keys(es) == images;
    assert [] + es == es;
    PutAllFresh([], es);
  }

  /** The queue items for a list of results: one `Some` per result. */
  function Items(es: seq<Entry>): seq<Option<Entry>> {
    seq(|es|, i requires 0 <= i < |es| => Some(es[i]))
  }

  /** One more result recorded: the table takes one more assignment and
      the queue one more item. */
  lemma ScanStep(d: seq<Entry>, es: seq<Entry>, i: nat)
    requires i < |es|
    ensures PutAll(d, es[..i + 1]) == Put(PutAll(d, es[..i]), es[i].0, es[i].1)
    ensures Items(es[..i + 1]) == Items(es[..i]) + [Some(es[i])]
  {
    assert es[..i + 1][..i] == es[..i];
  }

  /** The position of the first end marker in a queue, or its length when it
      holds none. */
  function FirstEnd(q: seq<Option<Entry>>): (n: nat)
    ensures n <= |q|
    ensures forall j :: 0 <= j < n ==> q[j].Some?
    ensures n < |q| ==> q[n].None?
  {
    if q == [] || q[0].None? then 0 else 1 + FirstEnd(q[1..])
  }

  /** The consumer's rows for dequeued items, one per result, unfiltered. */
  function StreamRows(q: seq<Option<Entry>>, filtered: bool): (rows: seq<Row>)
  {
    if q == [] then []
    else
      StreamRows(q[..|q| - 1], filtered) +
      match q[|q| - 1]
      case Some(e) => [RowOf(e, filtered)]
      case None => []
  }

  /** The first end marker is found where it is. */
  lemma FirstEndAt(q: seq<Option<Entry>>, m: nat)
    requires m < |q| && q[m].None?
    requires forall j :: 0 <= j < m ==> q[j].Some?
    ensures FirstEnd(q) == m
  {
  }

  /** One more dequeued result, one more row. */
  lemma StreamRowsStep(q: seq<Option<Entry>>, i: nat, filtered: bool)
    requires i < |q| && q[i].Some?
    ensures StreamRows(q[..i + 1], filtered) == StreamRows(q[..i], filtered) + [RowOf(q[i].value, filtered)]
  {
    assert q[..i + 1][..i] == q[..i];
  }

  /** A queue left with no end marker, followed by one scan's items and its
      end marker: the consumer stops at that marker and nothing is left. */
  lemma EndOfScan(stale: seq<Option<Entry>>, es: seq<Entry>)
    requires forall j :: 0 <= j < |stale| ==> stale[j].Some?
    ensures FirstEnd(stale + Items(es) + [None]) == |stale| + |es|
    ensures (stale + Items(es) + [None])[|stale| + |es| + 1..] == []
  {
    var q, m := stale + Items(es) + [None], |stale| + |es|;
    forall j | 0 <= j < m ensures q[j].Some? {
      if j < |stale| {
        assert q[j] == stale[j];
      } else {
        assert q[j] == Items(es)[j - |stale|];
      }
    }
    FirstEndAt(q, m);
  }

  /** Streaming applies no filter: every dequeued result gets a row, in
      dequeue order, labelled as the current filter state says. */
  lemma {:induction false} StreamRowsOfItems(es: seq<Entry>, filtered: bool)
    ensures StreamRows(Items(es), filtered) == Rows(es, filtered)
  {
    if es != [] {
      var init := es[..|es| - 1];
      assert Items(es)[..|es| - 1] == Items(init);
      StreamRowsOfItems(init, filtered);
    }
  }

  /** With the filter off the streamed rows are already the final table;
      with it on every result is streamed, tagged ones included, all
      labelled "No", so the final rebuild is what hides the tagged ones. */
  lemma StreamVersusView(es: seq<Entry>, filtered: bool)
    ensures !filtered ==> StreamRows(Items(es), filtered) == View(es, filtered)
    ensures filtered ==> |StreamRows(Items(es), filtered)| == |es|
    ensures filtered ==> forall r :: r in StreamRows(Items(es), filtered) ==> r.tagCell == "No"
  {
    StreamRowsOfItems(es, filtered);
    if !filtered {
      ViewUnfilteredShowsAll(es);
    }
  }
}
