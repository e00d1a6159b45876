/** The question "does this image carry the filter tag?", with the image
    library abstracted: what opening a file yields is an input, as is the
    table from numeric tag ids to tag names. */
module Exif {

  /** What the image library makes of one path: the file cannot be opened or
      decoded, it decodes but has no EXIF block, or it has a block whose
      numeric tag ids are given (the values play no part in the test). */
  datatype ExifRead = OpenFailed | NoExif | Exif(ids: set<int>)

  /** The files on disk, by path; a path that is not there fails to open. */
  function ReadAt(disk: map<string, ExifRead>, path: string): ExifRead {
    if path in disk then disk[path] else OpenFailed
  }

  /** The names of the ids in an EXIF block that the tag table knows; ids the
      table does not know are dropped. These are the keys of the name-keyed
      dictionary built from the block. */
  function KnownNames(ids: set<int>, tagNames: map<int, string>): (names: set<string>)
    ensures names <= tagNames.Values
  {
    set k | k in ids && k in tagNames :: tagNames[k]
  }

  /** True when the image's EXIF block carries a known tag whose name is
      `tag`; every failure to read the block gives false, and a name the
      table does not hold is never found. */
  predicate HasExifTag(read: ExifRead, tagNames: map<int, string>, tag: string)
    ensures HasExifTag(read, tagNames, tag) ==> read.Exif? && tag in tagNames.Values
  {
    match read
    case Exif(ids) => tag in KnownNames(ids, tagNames)
    case _ => false
  }

  /** A block holding an id the table names finds that name. */
  lemma NamedIdFound(ids: set<int>, tagNames: map<int, string>, k: int)
    requires k in ids && k in tagNames
    ensures HasExifTag(Exif(ids), tagNames, tagNames[k])
  {
  }

  /** More ids in a block never lose a tag that fewer ids had. */
  lemma MoreIdsKeepTag(ids: set<int>, more: set<int>, tagNames: map<int, string>, tag: string)
    requires ids <= more
    ensures HasExifTag(Exif(ids), tagNames, tag) ==> HasExifTag(Exif(more), tagNames, tag)
  {
    if HasExifTag(Exif(ids), tagNames, tag) {
      var k :| k in ids && k in tagNames && tagNames[k] == tag;
      NamedIdFound(more, tagNames, k);
    }
  }

  /** Ids that the table does not know never make the test succeed. */
  lemma UnknownIdsIgnored(ids: set<int>, extra: set<int>, tagNames: map<int, string>, tag: string)
    requires extra !! tagNames.Keys
    ensures HasExifTag(Exif(ids + extra), tagNames, tag) <==> HasExifTag(Exif(ids), tagNames, tag)
  {
  }
}
