/** File-name handling used when a folder is loaded: the case-insensitive
    extension test and the POSIX forms of joining a folder with a name and
    taking the last component of a path. */
module Paths {

  /** The extensions a listed name must end with (after lower-casing) to be
      kept as an image. */
  const Extensions: seq<string> := [".png", ".jpg", ".jpeg", ".gif", ".bmp"]

  /** Lower-casing of one character; only ASCII letters are mapped. */
  function LowerChar(c: char): char {
    if 'A' <= c <= 'Z' then (c as int + 32) as char else c
  }

  /** Lower-casing of a whole string, character by character. */
  function Lower(s: string): string {
    seq(|s|, i requires 0 <= i < |s| => LowerChar(s[i]))
  }

  /** Upper-casing of one character; only ASCII letters are mapped. */
  function UpperChar(c: char): char {
    if 'a' <= c <= 'z' then (c as int - 32) as char else c
  }

  function Upper(s: string): string {
    seq(|s|, i requires 0 <= i < |s| => UpperChar(s[i]))
  }

  predicate EndsWith(s: string, suffix: string) {
    |suffix| <= |s| && s[|s| - |suffix|..] == suffix
  }

  /** A listed name is an image name when its lower-cased form ends with one
      of the supported extensions. Nothing else about the entry is checked. */
  predicate IsImageName(name: string) {
    exists ext :: ext in Extensions && EndsWith(Lower(name), ext)
  }

  /** The test ignores case: a name and its upper-cased or lower-cased
      spelling are kept or dropped together. */
  lemma IsImageNameIgnoresCase(name: string)
    ensures IsImageName(Upper(name)) <==> IsImageName(name)
    ensures IsImageName(Lower(name)) <==> IsImageName(name)
  {
    assert Lower(Upper(name)) == Lower(name);
    assert Lower(Lower(name)) == Lower(name);
  }

  /** The test looks at no more than the last five characters of a name:
      whatever precedes them cannot change the verdict. */
  lemma IsImageNameIgnoresPrefix(prefix: string, name: string)
    requires |name| >= 5
    ensures IsImageName(prefix + name) <==> IsImageName(name)
  {
  }

  /** Upper-case and mixed-case spellings of an extension are accepted. */
  lemma UpperCaseExtensionKept()
    ensures IsImageName("Photo.JPG")
    ensures IsImageName("scan.JpEg")
  {
    assert Lower("Photo.JPG") == "photo.jpg";
    assert EndsWith(Lower("Photo.JPG"), ".jpg");
    assert Lower("scan.JpEg") == "scan.jpeg";
    assert EndsWith(Lower("scan.JpEg"), ".jpeg");
  }

  /** Names whose last extension is not supported are dropped, even when a
      supported extension appears earlier in the name. */
  lemma OtherExtensionsDropped()
    ensures !IsImageName("notes.txt")
    ensures !IsImageName("holiday.jpg.zip")
  {
    assert Lower("notes.txt") == "notes.txt";
    assert Lower("holiday.jpg.zip") == "holiday.jpg.zip";
  }

  /** `os.path.join` of a folder and one more component (POSIX rules): an
      absolute component replaces the folder; a separator is inserted only
      when the folder is non-empty and does not already end with one. */
  function Join(folder: string, name: string): string {
    if |name| > 0 && name[0] == '/' then name
    else if folder == [] || folder[|folder| - 1] == '/' then folder + name
    else folder + "/" + name
  }

  /** A joined path ends with the name, and starts with the folder unless
      the name is absolute. */
  lemma JoinShape(folder: string, name: string)
    ensures EndsWith(Join(folder, name), name)
    ensures name == [] || name[0] != '/' ==>
      |folder| <= |Join(folder, name)| && Join(folder, name)[..|folder|] == folder
  {
  }

  /** `os.path.basename`: everything after the last separator. */
  function Basename(p: string): string {
    if p == [] || p[|p| - 1] == '/' then []
    else Basename(p[..|p| - 1]) + [p[|p| - 1]]
  }

  /** The base name is the path's last component: a suffix of the path with
      no separator in it, preceded in the path by a separator unless it is
      the whole path. */
  lemma {:induction false} BasenameIsLastComponent(p: string)
    ensures EndsWith(p, Basename(p))
    ensures '/' !in Basename(p)
    ensures |Basename(p)| < |p| ==> p[|p| - |Basename(p)| - 1] == '/'
  {
    if p != [] && p[|p| - 1] != '/' {
      var init := p[..|p| - 1];
      BasenameIsLastComponent(init);
      var r := Basename(p);
      assert r == Basename(init) + [p[|p| - 1]];
      assert p[|p| - |r|..] == init[|init| - |Basename(init)|..] + [p[|p| - 1]];
    }
  }

  /** A name without a separator is the last component of any path that
      ends in a separator (or is empty) followed by that name. */
  lemma {:induction false} BasenameAfterSeparator(prefix: string, name: string)
    requires prefix == [] || prefix[|prefix| - 1] == '/'
    requires '/' !in name
    ensures Basename(prefix + name) == name
  {
    if name == [] {
      assert prefix + name == prefix;
    } else {
      var p := prefix + name;
      var init := name[..|name| - 1];
      assert p[..|p| - 1] == prefix + init;
      assert p[|p| - 1] == name[|name| - 1];
      BasenameAfterSeparator(prefix, init);
      assert init + [name[|name| - 1]] == name;
    }
  }

  /** Round trip: the file name shown for a joined path is the listed name. */
  lemma BasenameOfJoin(folder: string, name: string)
    requires '/' !in name
    ensures Basename(Join(folder, name)) == name
  {
    if folder == [] || folder[|folder| - 1] == '/' {
      BasenameAfterSeparator(folder, name);
    } else {
      assert folder + "/" + name == (folder + "/") + name;
      BasenameAfterSeparator(folder + "/", name);
    }
  }

  /** Within one folder, different listed names give different paths. */
  lemma JoinInjective(folder: string, a: string, b: string)
    requires '/' !in a && '/' !in b
    ensures Join(folder, a) == Join(folder, b) <==> a == b
  {
    BasenameOfJoin(folder, a);
    BasenameOfJoin(folder, b);
  }
}
