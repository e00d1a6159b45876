/** The application object: the folder load, the background scan (run here
    as one sequential step), the polling consumer that fills the table, the
    filter toggle and the table rebuild. Widgets are reduced to the state
    they show: the table's rows, the filter button's text and the status
    label's text. */
module Viewer {
  import opened Wrappers
  import opened Paths
  import opened Exif
  import opened ExifTable
  import opened Scan

  /** The tag the filter looks for until the user types another one. */
  const DefaultFilterTag: string := "DateTimeOriginal"

  /** The filter button's text. */
  function ButtonText(filtered: bool): (r: string)
    ensures r == "Toggle Filter (ON)" <==> filtered
    ensures r == "Toggle Filter (OFF)" <==> !filtered
  {
    if filtered then "Toggle Filter (ON)" else "Toggle Filter (OFF)"
  }

  class ImageViewerApp {
    var folderPath: string
    /** Where the folder dialog opens next: the last folder chosen. */
    var lastFolder: string
    var images: seq<string>
    /** The results table, `path -> has_tag` in insertion order. */
    var exifData: seq<Entry>
    var isFiltered: bool
    var filterTag: string
    /** The producer-to-consumer queue, oldest item first. */
    var queue: seq<Option<Entry>>
    /** The rows of the on-screen table, top to bottom. */
    var tree: seq<Row>
    var filterButton: string
    var progressText: string

    /** The results table never holds a path twice. */
    ghost predicate Valid()
      reads this
    {
      DistinctKeys(exifData)
    }

    /** `home` is the user's home directory, where the first folder dialog
        opens. */
    constructor (home: string)
      ensures Valid()
      ensures folderPath == "" && lastFolder == home && images == [] && exifData == []
      ensures isFiltered && filterTag == DefaultFilterTag
      ensures queue == [] && tree == []
      ensures filterButton == ButtonText(true) && progressText == ""
    {
      folderPath := "";
      lastFolder := home;
      images := [];
      isFiltered := true;
      filterTag := DefaultFilterTag;
      queue := [];
      exifData := [];
      tree := [];
      filterButton := ButtonText(true);
      progressText := "";
    }

    /** Load the current folder, given the names it lists: forget the
        previous scan's images and results, then keep the image names,
        joined with the folder, in listing order. */
    method LoadImages(listing: seq<string>)
      modifies this
      ensures Valid()
      ensures images == ImagePaths(folderPath, listing)
      ensures exifData == []
      ensures folderPath == old(folderPath) && lastFolder == old(lastFolder)
      ensures isFiltered == old(isFiltered) && filterTag == old(filterTag)
      ensures queue == old(queue) && tree == old(tree)
      ensures filterButton == old(filterButton) && progressText == old(progressText)
    {
      images := [];
      exifData := [];
      for i := 0 to |listing|
        modifies this`images
        invariant images == ImagePaths(folderPath, listing[..i])
      {
        var name := listing[i];
        assert listing[..i + 1] == listing[..i] + [name];
        KeptNamesAppend(listing[..i], [name]);
        if IsImageName(name) {
          images := images + [Join(folderPath, name)];
        }
      }
      assert listing[..|listing|] == listing;
    }

    /** The background scan: test every image in order, record the answer in
        the results table and put it on the queue, then put the end
        marker. */
    method ProcessImages(disk: map<string, ExifRead>, tagNames: map<int, string>)
      requires Valid()
      modifies this
      ensures Valid()
      ensures exifData == PutAll(old(exifData), ScanEntries(images, disk, tagNames, filterTag))
      ensures queue == old(queue) + Items(ScanEntries(images, disk, tagNames, filterTag)) + [None]
      ensures images == old(images) && folderPath == old(folderPath) && lastFolder == old(lastFolder)
      ensures isFiltered == old(isFiltered) && filterTag == old(filterTag)
      ensures tree == old(tree) && filterButton == old(filterButton) && progressText == old(progressText)
    {
      ghost var es := ScanEntries(images, disk, tagNames, filterTag);
      for i := 0 to |images|
        modifies this`exifData, this`queue
        invariant exifData == PutAll(old(exifData), es[..i])
        invariant queue == old(queue) + Items(es[..i])
      {
        var path := images[i];
        var hasTag := HasExifTag(ReadAt(disk, path), tagNames, filterTag);
        assert es[i] == (path, hasTag);
        ScanStep(old(exifData), es, i);
        exifData := Put(exifData, path, hasTag);
        queue := queue + [Some((path, hasTag))];
      }
      assert es[..|images|] == es;
      PutAllDistinct(old(exifData), es);
      queue := queue + [None];
    }

    /** One poll of the queue: take items without waiting; each result gets
        a row, unfiltered; at the end marker rebuild the table, show "Done"
        and stop polling; when the queue runs dry ask to be polled again. */
    method CheckImageQueue() returns (reschedule: bool)
      requires Valid()
      modifies this
      ensures Valid()
      ensures FirstEnd(old(queue)) < |old(queue)| ==>
        !reschedule && queue == old(queue)[FirstEnd(old(queue)) + 1..] &&
        tree == View(exifData, isFiltered) && progressText == "Done"
      ensures FirstEnd(old(queue)) == |old(queue)| ==>
        reschedule && queue == [] &&
        tree == old(tree) + StreamRows(old(queue), isFiltered) && progressText == old(progressText)
      ensures exifData == old(exifData) && images == old(images)
      ensures folderPath == old(folderPath) && lastFolder == old(lastFolder)
      ensures isFiltered == old(isFiltered) && filterTag == old(filterTag)
      ensures filterButton == old(filterButton)
    {
      ghost var q := queue;
      ghost var i := 0;
      while queue != []
        modifies this`queue, this`tree, this`progressText
        invariant progressText == old(progressText)
        invariant 0 <= i <= |q| && queue == q[i..]
        invariant forall j :: 0 <= j < i ==> q[j].Some?
        invariant tree == old(tree) + StreamRows(q[..i], isFiltered)
        decreases |queue|
      {
        var item := queue[0];
        assert item == q[i];
        queue := queue[1..];
        match item {
          case None =>
            FirstEndAt(q, i);
            UpdateTable();
            progressText := "Done";
            return false;
          case Some(e) =>
            StreamRowsStep(q, i, isFiltered);
            tree := tree + [RowOf(e, isFiltered)];
            i := i + 1;
        }
      }
      assert q[..i] == q;
      return true;
    }

    /** Flip the filter, take the tag from the entry field, relabel the
        button and rebuild the table. */
    method ToggleFilter(entryText: string)
      requires Valid()
      modifies this
      ensures Valid()
      ensures isFiltered == !old(isFiltered)
      ensures filterTag == entryText
      ensures filterButton == ButtonText(isFiltered)
      ensures tree == View(exifData, isFiltered)
      ensures exifData == old(exifData) && images == old(images)
      ensures folderPath == old(folderPath) && lastFolder == old(lastFolder)
      ensures queue == old(queue) && progressText == old(progressText)
    {
      isFiltered := !isFiltered;
      filterTag := entryText;
      filterButton := ButtonText(isFiltered);
      UpdateTable();
    }

    /** Clear the table and list the results that pass the filter, in
        insertion order. */
    method UpdateTable()
      modifies this`tree
      ensures tree == View(exifData, isFiltered)
    {
      tree := [];
      for i := 0 to |exifData|
        invariant tree == View(exifData[..i], isFiltered)
      {
        var (path, hasTag) := exifData[i];
        assert exifData[..i + 1] == exifData[..i] + [(path, hasTag)];
        ViewEntriesAppend(exifData[..i], [(path, hasTag)], isFiltered);
        if !isFiltered || !hasTag {
          tree := tree + [Row(Basename(path), Label(hasTag, isFiltered))];
        }
      }
      assert exifData[..|exifData|] == exifData;
    }

    /** The folder dialog returns `folder` (empty when it is cancelled).
        A cancelled dialog changes nothing but `folderPath`. A chosen folder
        is remembered for the next dialog, loaded and scanned, and the scan
        runs to completion before the first poll: the table then lists
        exactly the scanned images that pass the filter, the results hold
        one entry per image in listing order, and polling stops. */
    method ScanFolder(folder: string, listing: seq<string>,
                      disk: map<string, ExifRead>, tagNames: map<int, string>)
      returns (reschedule: bool)
      requires Valid()
      requires forall j :: 0 <= j < |queue| ==> queue[j].Some?
      requires PlainNames(listing) && Distinct(listing)
      modifies this
      ensures Valid()
      ensures folderPath == folder
      ensures folder == "" ==>
        lastFolder == old(lastFolder) && images == old(images) && exifData == old(exifData) &&
        tree == old(tree) && queue == old(queue) && progressText == old(progressText) && !reschedule
      ensures folder != "" ==> lastFolder == folder
      ensures folder != "" ==> images == ImagePaths(folder, listing)
      ensures folder != "" ==> exifData == ScanEntries(images, disk, tagNames, filterTag)
      ensures folder != "" ==> tree == View(exifData, isFiltered)
      ensures folder != "" ==> queue == [] && !reschedule && progressText == "Done"
      ensures isFiltered == old(isFiltered) && filterTag == old(filterTag)
      ensures filterButton == old(filterButton)
    {
      folderPath := folder;
      if folder == "" {
        return false;
      }
      lastFolder := folder;
      LoadImages(listing);
      ImagePathsExact(folder, listing);
      ghost var stale := queue;
      ghost var es := ScanEntries(images, disk, tagNames, filterTag);
      ProcessImages(disk, tagNames);
      ScanTableExact(images, disk, tagNames, filterTag);
      EndOfScan(stale, es);
      reschedule := CheckImageQueue();
    }
  }
}
