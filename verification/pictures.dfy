/** Profile-picture upload rules: the extension check, the size check, the
    name the picture is stored under, and the replacement of a user's
    earlier picture in the picture directory (a set of file names). */
module Pictures {
  import opened Common
  import opened Identity

  const AllowedExtensions: seq<string> := ["gif", "png", "jpg", "jpeg"]

  /** A picture is refused only when BOTH sides exceed this. */
  const MaxSide: int := 800

  const Directory: string := "assets/picture/profiles"

  /** `filename.split('.')[-1]`: the text after the last dot, or the whole
      name when it has no dot. */
  function Extension(filename: string): (ext: string)
    ensures '.' !in ext
    ensures |ext| <= |filename| && ext == filename[|filename| - |ext|..]
    ensures |ext| < |filename| ==> filename[|filename| - |ext| - 1] == '.'
    decreases |filename|
  {
    if filename == [] then []
    else if filename[|filename| - 1] == '.' then []
    else
      var init, last := filename[..|filename| - 1], filename[|filename| - 1];
      var ext := Extension(init);
      assert filename[|filename| - |ext| - 1..] == init[|init| - |ext|..] + [last];
      ext + [last]
  }

  /** The checks of `upload_profile_picture` after the user lookup, in the
      source's order: extension, readability, size. Each failure is a bare
      400. On success the extension is returned. */
  function CheckUpload(filename: string, readable: bool, width: int, height: int): (r: Result<string>)
    ensures r.Ok? <==> Extension(filename) in AllowedExtensions && readable && (width <= MaxSide || height <= MaxSide)
    ensures r.Ok? ==> r.value == Extension(filename) && '.' !in r.value
    ensures r.Err? ==> r == Err(400, BadRequest)
  {
    if Extension(filename) !in AllowedExtensions then Err(400, BadRequest)
    else if !readable then Err(400, BadRequest)
    else if width > MaxSide && height > MaxSide then Err(400, BadRequest)
    else Ok(Extension(filename))
  }

  /** The stored file name `token + '.' + extension`. */
  function StoredName(token: nat, ext: string): string {
    DecimalString(token) + "." + ext
  }

  /** The prefix that marks a user's stored pictures. */
  function PicturePrefix(token: nat): string {
    DecimalString(token) + "."
  }

  predicate StartsWith(s: string, prefix: string) {
    |prefix| <= |s| && s[..|prefix|] == prefix
  }

  /** The stored name ends in the uploaded extension: splitting it on dots
      gives back the extension. */
  lemma {:induction false} StoredNameKeepsExtension(token: nat, ext: string)
    requires '.' !in ext
    ensures Extension(StoredName(token, ext)) == ext
    decreases |ext|
  {
    var name := StoredName(token, ext);
    if ext != [] {
      var init := ext[..|ext| - 1];
      StoredNameKeepsExtension(token, init);
      assert name[..|name| - 1] == StoredName(token, init);
      assert ext == init + [ext[|ext| - 1]];
    }
  }

  /** A stored name that starts with a token's prefix belongs to that token:
      the first dot of the name ends the decimal text of its token. */
  lemma PrefixDeterminesToken(token: nat, other: nat, ext: string)
    requires StartsWith(StoredName(other, ext), PicturePrefix(token))
    ensures token == other
  {
    var d, e := DecimalString(token), DecimalString(other);
    var name := StoredName(other, ext);
    assert name[|d|] == PicturePrefix(token)[|d|] == '.';
    assert name[|e|] == '.';
    assert forall i :: 0 <= i < |e| ==> name[i] == e[i] != '.';
    assert forall i :: 0 <= i < |d| ==> name[i] == d[i] != '.';
    assert |d| == |e|;
    assert d == name[..|d|] == e;
    DecimalRoundTrip(token);
    DecimalRoundTrip(other);
  }

  /** Two different tokens never mark each other's pictures: one token's
      prefix does not start another token's stored name. */
  lemma PrefixesSeparateTokens(token: nat, other: nat, ext: string)
    requires token != other
    ensures !StartsWith(StoredName(other, ext), PicturePrefix(token))
  {
    if StartsWith(StoredName(other, ext), PicturePrefix(token)) {
      PrefixDeterminesToken(token, other, ext);
    }
  }

  /** The files of the directory that do not start with `prefix`: the
      directory after the removal loop of `upload_profile_picture`. */
  function Unmarked(files: set<string>, prefix: string): (r: set<string>)
    ensures forall f :: f in r <==> f in files && !StartsWith(f, prefix)
  {
    set f | f in files && !StartsWith(f, prefix)
  }

  /** The removal loop of `upload_profile_picture`: walk the directory and
      remove every file whose name starts with `prefix`. */
  method RemovePictures(files: set<string>, prefix: string) returns (kept: set<string>)
    ensures kept == Unmarked(files, prefix)
  {
    kept := files;
    var listing := files;
    while listing != {}
      invariant listing <= files && kept <= files
      invariant forall f :: f in files ==> (f in kept <==> f in listing || !StartsWith(f, prefix))
      decreases listing
    {
      var f := Choose(listing);
      if StartsWith(f, prefix) {
        kept := kept - {f};
      }
      listing := listing - {f};
    }
  }

  /** The picture directory after an upload: the user's earlier pictures
      removed, the new one saved. */
  function ReplacePicture(files: set<string>, token: nat, ext: string): (r: set<string>)
    ensures StoredName(token, ext) in r
    ensures forall f :: f in r && StartsWith(f, PicturePrefix(token)) ==> f == StoredName(token, ext)
    ensures forall f :: f in files && !StartsWith(f, PicturePrefix(token)) ==> f in r
    ensures r <= files + {StoredName(token, ext)}
  {
    Unmarked(files, PicturePrefix(token)) + {StoredName(token, ext)}
  }

  /** The path `save_image` returns. */
  function SavedPath(name: string): string {
    Directory + "/" + name
  }
}
