# Image folder EXIF filter — a Dafny model

The program is a small desktop viewer. The user picks a folder. The viewer
keeps the image files it lists and checks, in the background, whether each
image's EXIF block carries a chosen tag (`DateTimeOriginal` by default). It
then shows a two-column table of file names and "Has EXIF Tag". A toggle
switches between two views: only the images that lack the tag, or every
image.

This project models the sequential logic inside the application class:

- `Paths`: the case-insensitive extension test, and the POSIX forms of
  `os.path.join` and `os.path.basename` as string functions.
- `Exif`: the "does this image carry the tag?" test. The image library is
  abstracted. What opening a path yields is an input: the file cannot be
  opened, it has no EXIF block, or it has a block with a set of numeric tag
  ids. The id-to-name table is also an input.
- `ExifTable`: the results table. It is a Python dict kept in insertion
  order, modelled as a sequence of `(path, has_tag)` pairs with dictionary
  assignment (`Put`). It also holds the projection of that table onto the
  screen's rows.
- `Scan`: what a folder load and a scan produce. This covers the kept paths,
  the results in scan order, the queue items with their end marker, and the
  rows the queue consumer appends.
- `Viewer`: the class `ImageViewerApp`, whose fields are the folder, the folder last chosen, the
  images, the results table, the filter flag and tag, the queue, the table's
  rows, the button text and the status text. Its methods are the load, the
  producer, one poll of the consumer, the toggle and the table rebuild.
  `ScanFolder` runs the whole sequence: choose a folder, load it, scan it,
  poll once; a cancelled choice stops after the first step.

The producer and the consumer run on two threads in the program. Here they
are two sequential steps that share the `queue` field.

Behaviour of the code as written that the contracts make visible:

- Loading a folder empties `images` and the results table. It does not
  empty the on-screen table or the queue. Until the end marker arrives, new
  rows are added below the rows of the previously shown folder.
- While results stream in, the consumer adds a row for every image, with no
  filtering. With the filter on, each of these rows is labelled "No", even
  for an image that has the tag (`Scan.StreamVersusView`). Only the rebuild
  at the end marker hides the tagged images.
- Toggling the filter takes the tag typed in the entry field but does not
  rescan. The results still hold the answers for the tag in force when the
  folder was scanned, and the table is rebuilt from them
  (`Viewer.ImageViewerApp.ToggleFilter`). A new tag takes effect only at the
  next folder load.
- A cancelled folder dialog sets the folder to the empty string but keeps
  the images, results and table of the previous folder.
- The extension test looks only at the name. A directory called
  `album.png` is kept.

## Model

| member | source | states |
|---|---|---|
| `Paths.IsImageName` | image-folder-exif-filter.py:70 | a listed name is kept when its lower-cased form ends with `.png`, `.jpg`, `.jpeg`, `.gif` or `.bmp`; nothing else about the entry is examined |
| `Paths.IsImageNameIgnoresCase` | image-folder-exif-filter.py:70 | a name, its upper-cased spelling and its lower-cased spelling are kept or dropped together |
| `Paths.IsImageNameIgnoresPrefix` | image-folder-exif-filter.py:70 | whether a name is kept depends only on its last five characters, lower-cased; nothing before them matters |
| `Paths.UpperCaseExtensionKept` | image-folder-exif-filter.py:70 | the extension is compared case-insensitively: `Photo.JPG` and `scan.JpEg` are kept |
| `Paths.OtherExtensionsDropped` | image-folder-exif-filter.py:70 | only the name's final extension counts: `notes.txt` and `holiday.jpg.zip` are dropped |
| `Paths.Join` | image-folder-exif-filter.py:71 | `os.path.join` of a folder and a name on POSIX: an absolute name replaces the folder, and a separator is added only after a non-empty folder that does not already end with one |
| `Paths.JoinShape` | image-folder-exif-filter.py:71 | a joined path ends with the name, and begins with the folder whenever the name is not absolute |
| `Paths.Basename` | image-folder-exif-filter.py:97 | `os.path.basename`: the characters after the path's last separator |
| `Paths.BasenameIsLastComponent` | image-folder-exif-filter.py:97 | the base name is a suffix of the path that holds no separator, and it is preceded by a separator unless it is the whole path |
| `Paths.BasenameOfJoin` | image-folder-exif-filter.py:97 | the file name shown for a path built by joining a folder with a listed name is that listed name |
| `Paths.JoinInjective` | image-folder-exif-filter.py:71 | within one folder, two listed names give the same path only if they are the same name |
| `Exif.KnownNames` | image-folder-exif-filter.py:106 | the keys of the comprehension: the names of the file's tag ids that the id table knows, which are always names from that table |
| `Exif.HasExifTag` | image-folder-exif-filter.py:103-109 | the tag test: it can hold only for a file that opens and has an EXIF block, and only for a tag the id table names; an unopenable file or a missing block gives false |
| `Exif.NamedIdFound` | image-folder-exif-filter.py:106-107 | any id in the file's EXIF block that the id table knows makes the test hold for the name the table gives it |
| `Exif.MoreIdsKeepTag` | image-folder-exif-filter.py:106-107 | a file with more tag ids never loses a tag: the test is monotone in the set of ids |
| `Exif.UnknownIdsIgnored` | image-folder-exif-filter.py:106 | ids missing from the id table never change the outcome of the tag test |
| `ExifTable.IndexOf` | image-folder-exif-filter.py:83 | the position of a path's entry in the results table: the entry there has that path and no earlier one does; the table's length when the path is absent |
| `ExifTable.Put` | image-folder-exif-filter.py:83 | dictionary assignment `exif_data[path] = has_tag` on the insertion-ordered table |
| `ExifTable.PutMeaning` | image-folder-exif-filter.py:83 | dictionary assignment: an existing key keeps its place and takes the new value; a new key is appended; all other entries stay; keys stay distinct |
| `ExifTable.PutAllDistinct` | image-folder-exif-filter.py:81-83 | recording any number of results never stores a path twice |
| `ExifTable.PutAllFresh` | image-folder-exif-filter.py:81-83 | recording results whose paths are new and distinct appends them in order |
| `Scan.KeptNames` | image-folder-exif-filter.py:69-72 | the listed names that pass the extension test, in listing order; every kept name passes it and there are no more kept names than listed ones |
| `Scan.ImagePaths` | image-folder-exif-filter.py:69-72 | `images` after a load: the folder joined with each kept name, in listing order |
| `Scan.KeptNamesMembership` | image-folder-exif-filter.py:69-72 | a name is kept exactly when it is listed and its lower-cased form ends with `.png`, `.jpg`, `.jpeg`, `.gif` or `.bmp` |
| `Scan.KeptNamesAppend` | image-folder-exif-filter.py:69-72 | keeping names preserves the listing order: filtering a concatenation gives the two filtered parts in order |
| `Scan.KeptNamesDistinct` | image-folder-exif-filter.py:69-72 | a listing without repeated names gives kept names without repeats |
| `Scan.ImagePathsExact` | image-folder-exif-filter.py:69-72 | `images` holds one path per kept name, in listing order, and each path's file name is its kept name; the path for a name is present exactly when the name is kept; a listing without repeats gives no repeated paths |
| `Viewer.ImageViewerApp.LoadImages` | image-folder-exif-filter.py:66-72 | the new `images` are the current folder joined with the kept names, in listing order, and the results table is empty, so nothing from the earlier scan survives there; the folder, the queue, the on-screen table and the filter are unchanged |
| `Scan.ScanEntries` | image-folder-exif-filter.py:81-82 | the results of one scan, in `images` order: each image path with the tag test's answer for what opening it yields |
| `Scan.ScanTableExact` | image-folder-exif-filter.py:81-83 | after a scan of distinct images starting from the emptied table, the table has exactly one entry per image, in `images` order, and its keys are `images` |
| `Viewer.ImageViewerApp.ProcessImages` | image-folder-exif-filter.py:80-86 | the results table has every image's answer assigned in `images` order; the queue gains one `(path, has_tag)` per image in that order and then exactly one end marker; nothing else changes |
| `Scan.FirstEnd` | image-folder-exif-filter.py:90-92 | the position the consumer stops at: every earlier item is a result, and the item there, if any, is the end marker |
| `Scan.StreamRows` | image-folder-exif-filter.py:96-98 | the rows the consumer appends for dequeued items: one per result, in dequeue order, none for an end marker |
| `Scan.EndOfScan` | image-folder-exif-filter.py:86-95 | a queue with leftover results, followed by one scan's items and its end marker, is drained exactly up to that marker and left empty |
| `Scan.StreamRowsOfItems` | image-folder-exif-filter.py:96-98 | consuming a scan's items gives one row per result, in queue order, with no filtering |
| `Scan.StreamVersusView` | image-folder-exif-filter.py:98 | with the filter off, the streamed rows are already the final table; with it on, every result is streamed, tagged ones included, and every row is labelled "No" |
| `Viewer.ImageViewerApp.CheckImageQueue` | image-folder-exif-filter.py:88-101 | if the queue holds an end marker: everything up to and including it is taken, the table becomes the filtered view, the status reads "Done" and polling stops; otherwise the queue is emptied, each result's row is appended unfiltered, and polling is rescheduled |
| `ExifTable.Label` | image-folder-exif-filter.py:122 | the "Has EXIF Tag" cell is "Yes" exactly when the filter is off and the image has the tag, and "No" otherwise |
| `ExifTable.RowOf` | image-folder-exif-filter.py:121-122 | the row for one result: the path's base name, and a cell reading "Yes" exactly when the filter is off and the image has the tag |
| `ExifTable.Shown` | image-folder-exif-filter.py:120 | a result is listed when the filter is off or the image lacks the tag |
| `ExifTable.ViewEntries` | image-folder-exif-filter.py:119-120 | the results the rebuilt table lists, in insertion order: each passes the filter, and there are no more of them than results |
| `ExifTable.View` | image-folder-exif-filter.py:119-122 | the rows of the rebuilt table: no more rows than results, and with the filter on every cell reads "No" |
| `ExifTable.ViewEntriesMembership` | image-folder-exif-filter.py:119-120 | an entry is shown exactly when it is in the results and either the filter is off or the entry lacks the tag |
| `ExifTable.ViewEntriesAppend` | image-folder-exif-filter.py:119-122 | the view keeps the results' insertion order: projecting a concatenation gives the two projections in order |
| `ExifTable.ViewUnfilteredShowsAll` | image-folder-exif-filter.py:120 | with the filter off every entry is shown, in insertion order |
| `ExifTable.ViewLabels` | image-folder-exif-filter.py:120-122 | with the filter on no shown entry has the tag and every label is "No"; with it off there is one row per entry, labelled "Yes" exactly when the entry has the tag |
| `Viewer.ImageViewerApp.UpdateTable` | image-folder-exif-filter.py:117-122 | the on-screen table is replaced by the projection of the results under the current filter |
| `Viewer.ButtonText` | image-folder-exif-filter.py:114 | the button reads "Toggle Filter (ON)" exactly when the filter is on, and "Toggle Filter (OFF)" exactly when it is off |
| `Viewer.ImageViewerApp.ToggleFilter` | image-folder-exif-filter.py:111-115 | the filter flag is negated, so toggling twice restores it; the tag becomes the entry field's text; the button text follows the flag; the table is rebuilt from the existing results; the results and the queue are unchanged |
| `Viewer.ImageViewerApp.constructor` | image-folder-exif-filter.py:14-20 | a new viewer starts with no folder, the dialog's start folder set to the home directory, no images, no results, an empty queue and an empty table, the filter on, the tag `DateTimeOriginal`, and the button reading ON |
| `Viewer.ImageViewerApp.ScanFolder` | image-folder-exif-filter.py:60-78 | the dialog's answer becomes the folder; a cancelled dialog changes nothing else; a chosen folder is remembered for the next dialog, and when its scan completes before the first poll, `images` are the kept paths, the results hold exactly one entry per image in listing order, the table shows the filtered view of those results, the queue is empty, the status reads "Done", polling stops, and the filter and button are unchanged |

`ExifTable.Keys`, `ExifTable.DistinctKeys`, `ExifTable.PutAll`,
`ExifTable.Rows`, `Scan.Distinct`, `Scan.PlainNames`, `Scan.Items`,
`Exif.ReadAt` and the case-mapping functions in `Paths` are helpers used to
state the contracts. `Scan.ScanStep`, `Scan.StreamRowsStep` and
`Scan.FirstEndAt` are one-step helper lemmas for the loops of
`ProcessImages` and `CheckImageQueue`. None of these has a row.

## Left out

- Widgets, window layout, the folder dialog and the `root.after` timer are not modelled. The folder the dialog returns is the `folder` parameter of `ScanFolder`, the empty string standing for a cancelled dialog. The home directory is the constructor's `home` parameter. A poll's request to be called again is its `reschedule` result.
- The progress bar's maximum and value are not modelled. They are display state written from both threads, and the consumer adds to the value a second time.
- The background thread and its interleaving with the consumer are not modelled. The producer runs as one step (`ProcessImages`) and the consumer as another (`CheckImageQueue`), over a shared queue sequence. A consumer that polls while the producer is still running is covered by `CheckImageQueue`'s no-end-marker case. Changes to the results table while `UpdateTable` iterates over it are not covered.
- The image library's file opening, `_getexif` and its id-to-name table are inputs, not modelled code. What opening a path yields is an `ExifRead`, and a path missing from the `disk` map fails to open.
- `os.listdir` is an input sequence of names. `ScanFolder` assumes what `os.listdir` guarantees: no repeated names and no `/` in any name.
- `os.listdir` raising an error (a folder that cannot be read) is not modelled: the listing is always given. In the program `images` and the results table have already been emptied at that point, no scan starts and no poll is scheduled.
- The extension test lower-cases only the ASCII letters A–Z. Python's `str.lower` also maps other Unicode letters, some of them to several characters.
- Date parsing, date-discrepancy analysis, metadata writing and recursive folder walks are not part of this program's code and are not modelled.
