/**
 * The GUI's image loader (gui/utils/image_loader.py): a file is read only when the
 * extension of its name, as os.path.splitext on POSIX finds it and lower-cased, is
 * one of the supported image formats.
 */
module Loader {
  import opened Wrappers
  import opened Grid
  import Defs

  /** The index of the last occurrence of ch in s, or -1 (str.rfind). */
  function RFind(s: string, ch: char): (i: int)
    ensures -1 <= i < |s|
    ensures i >= 0 ==> s[i] == ch
    ensures forall j :: i < j < |s| ==> s[j] != ch
    ensures i == -1 ==> ch !in s
  {
    if |s| == 0 then -1
    else if s[|s| - 1] == ch then |s| - 1
    else RFind(s[..|s| - 1], ch)
  }

  /**
   * os.path.splitext(path)[1] for POSIX paths: the text from the last '.' of the final
   * path component, provided something other than dots comes before that '.' in the
   * component; "" when there is no such dot (so ".png" and "noext" have no extension).
   */
  function Extension(path: string): (e: string)
    ensures e == "" || (e[0] == '.' && |e| <= |path| && e == path[|path| - |e|..])
    ensures '/' !in e && (e == "" || '.' !in e[1..])
  {
    var sep, dot := RFind(path, '/'), RFind(path, '.');
    if dot > sep && exists k :: sep + 1 <= k < dot && path[k] != '.' then
      assert forall j :: 0 <= j < |path[dot..]| ==> path[dot..][j] == path[dot + j];
      path[dot..]
    else ""
  }

  function LowerChar(ch: char): (l: char)
    ensures !('A' <= l <= 'Z')
    ensures !('A' <= ch <= 'Z') ==> l == ch
  {
    if 'A' <= ch <= 'Z' then (ch as int - 'A' as int + 'a' as int) as char else ch
  }

  /** str.lower() on ASCII letters: every upper-case letter is replaced by its lower case. */
  function Lower(s: string): (l: string)
    ensures |l| == |s|
    ensures forall i :: 0 <= i < |s| ==> l[i] == LowerChar(s[i])
  {
    if |s| == 0 then "" else [LowerChar(s[0])] + Lower(s[1..])
  }

  /** Lower-casing twice changes nothing more. */
  lemma LowerIdempotent(s: string)
    ensures Lower(Lower(s)) == Lower(s)
  {
    var l := Lower(s);
    assert forall i :: 0 <= i < |l| ==> Lower(l)[i] == l[i];
  }

  /**
   * A file reader: the decoded image, or None when the file cannot be decoded
   * (cv2.imread); a decoded image is a numpy array, hence rectangular.
   */
  type Reader = f: string -> Option<Grid<Bgr>> | forall path :: f(path).Some? ==> IsRect(f(path).value)
    witness (path: string) => None

  /** The extension load_image tests: os.path.splitext(path)[1].lower(). */
  function Ext(path: string): string {
    Lower(Extension(path))
  }

  /**
   * load_image(path): a path whose extension is not supported raises ValueError naming the
   * extension; otherwise the file is read, and a failed read raises ValueError naming the
   * path.
   */
  function LoadImage(read: Reader, path: string): (r: Result<Grid<Bgr>>)
    ensures Ext(path) !in Defs.Exts ==> r == Err(ValueError("Unsupported image format: " + Ext(path)))
    ensures Ext(path) in Defs.Exts ==> (r.Ok? <==> read(path).Some?)
    ensures Ext(path) in Defs.Exts && r.Ok? ==> r.value == read(path).value
    ensures Ext(path) in Defs.Exts && r.Err? ==> r.error == ValueError("Failed to load image: " + path)
  {
    var ext := Ext(path);
    if ext !in Defs.Exts then Err(ValueError("Unsupported image format: " + ext))
    else
      match read(path)
      case None => Err(ValueError("Failed to load image: " + path))
      case Some(img) => Ok(img)
  }

  /** A rejected extension is reported without reading: the reader makes no difference. */
  lemma RejectionReadsNothing(read: Reader, read': Reader, path: string)
    requires Ext(path) !in Defs.Exts
    ensures LoadImage(read, path) == LoadImage(read', path)
  {
  }

  /** A name with something other than dots before its last dot: the extension is that suffix. */
  lemma ExtensionOfName(stem: string, ext: string, k: int)
    requires '/' !in stem && 0 <= k < |stem| && stem[k] != '.'
    requires |ext| > 0 && ext[0] == '.' && '.' !in ext[1..] && '/' !in ext
    ensures Extension(stem + ext) == ext
  {
    var path := stem + ext;
    var dot := RFind(path, '.');
    assert path[|stem|] == '.';
    assert forall j :: |stem| < j < |path| ==> path[j] == ext[1..][j - |stem| - 1];
    assert dot == |stem|;
    assert RFind(path, '/') == -1 by {
      assert forall j :: 0 <= j < |path| ==> path[j] == if j < |stem| then stem[j] else ext[j - |stem|];
    }
    assert path[k] != '.';
    assert path[dot..] == ext;
  }

  /** A final component without a dot has no extension. */
  lemma NoDotNoExtension(dir: string, name: string)
    requires '.' !in name && '/' !in name
    ensures Extension(dir + "/" + name) == "" && Extension(name) == ""
  {
    var path := dir + "/" + name;
    assert path[|dir|] == '/';
    assert forall j :: |dir| < j < |path| ==> path[j] == name[j - |dir| - 1];
    assert RFind(path, '.') < RFind(path, '/');
  }

  /** A name whose only dot is the leading one (a hidden file) has no extension. */
  lemma LeadingDotNoExtension(name: string)
    requires |name| > 0 && name[0] == '.' && '.' !in name[1..] && '/' !in name
    ensures Extension(name) == ""
  {
    assert forall j :: 0 < j < |name| ==> name[j] == name[1..][j - 1];
    assert RFind(name, '.') == 0;
  }

  /** The extension test ignores case: "X.PNG" is accepted. */
  lemma UpperCaseAccepted()
    ensures Ext("X.PNG") == ".png" && Ext("X.PNG") in Defs.Exts
  {
    ExtensionOfName("X", ".PNG", 0);
    assert "X" + ".PNG" == "X.PNG";
    LowerPng();
    Defs.ExtsMembers(".png");
  }

  lemma LowerPng()
    ensures Lower(".PNG") == ".png"
  {
    var l := Lower(".PNG");
    assert l[0] == LowerChar('.') == '.' && l[1] == LowerChar('P') == 'p';
    assert l[2] == LowerChar('N') == 'n' && l[3] == LowerChar('G') == 'g';
  }

  /** Only the last suffix counts: "a.png.bak" has the unsupported extension ".bak". */
  lemma LastSuffixCounts()
    ensures Ext("a.png.bak") == ".bak" && Ext("a.png.bak") !in Defs.Exts
  {
    ExtensionOfName("a.png", ".bak", 0);
    assert "a.png" + ".bak" == "a.png.bak";
    assert Lower(".bak") == ".bak";
    Defs.ExtsMembers(".bak");
  }

  /** A name without a dot has no extension, so "noext" is rejected. */
  lemma NoDotRejected()
    ensures Ext("noext") == "" && Ext("noext") !in Defs.Exts
  {
    NoDotNoExtension("", "noext");
    EmptyExtensionRejected("noext");
  }

  /** A leading dot does not start an extension, so ".png" is rejected. */
  lemma HiddenFileRejected()
    ensures Ext(".png") == "" && Ext(".png") !in Defs.Exts
  {
    LeadingDotNoExtension(".png");
    EmptyExtensionRejected(".png");
  }

  /** A dot in a directory name does not count, so "photos.v2/scan" is rejected. */
  lemma DirectoryDotRejected()
    ensures Ext("photos.v2/scan") == "" && Ext("photos.v2/scan") !in Defs.Exts
  {
    NoDotNoExtension("photos.v2", "scan");
    assert "photos.v2" + "/" + "scan" == "photos.v2/scan";
    EmptyExtensionRejected("photos.v2/scan");
  }

  lemma EmptyExtensionRejected(path: string)
    requires Extension(path) == ""
    ensures Ext(path) == "" && Ext(path) !in Defs.Exts
  {
    assert Lower("") == "";
    Defs.ExtsMembers("");
  }
}
