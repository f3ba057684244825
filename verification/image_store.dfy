/**
 * The directory of generated images (IMAGE_DIR of the visualization
 * service): file names, the descriptor handed back to callers, retrieval
 * (`serve_image`) and the 24-hour expiry sweep (`cleanup_old_images`).
 *
 * The directory is modelled as a map from file name to entry; time is a
 * number of seconds supplied by the caller; the random token behind a
 * file name is a 32-bit number supplied by the caller.
 */
module ImageStore {

  import opened Common

  type Byte = bv8
  type Bytes = seq<Byte>

  /** An entry of the image directory: a regular file with its contents and
      modification time; a dangling symbolic link, which `os.listdir` lists
      but for which `os.path.exists` is false; or anything else that exists
      but is not a regular file (a sub-directory, say). `os.path.isfile` is
      false for the last two. */
  datatype Entry = RegularFile(bytes: Bytes, mtime: real) | DanglingLink | OtherEntry

  type Directory = map<string, Entry>

  /** Images older than this many seconds are swept. */
  const RetentionSeconds: real := 86400.0

  const UrlPrefix: string := "/api/images/"
  const DataUriPrefix: string := "data:image/png;base64,"
  const PngMimeType: string := "image/png"

  // ---------------------------------------------------------------------
  // Random tokens: the first 8 hex digits of a version-4 UUID, that is a
  // 32-bit number written as 8 lower-case hexadecimal digits.
  // ---------------------------------------------------------------------

  function Pow16(k: nat): (r: nat)
    ensures r > 0
  {
    if k == 0 then 1 else 16 * Pow16(k - 1)
  }

  type Token = t: nat | t < 0x1_0000_0000

  predicate IsLowerHexChar(c: char) {
    ('0' <= c <= '9') || ('a' <= c <= 'f')
  }

  function HexChar(d: nat): (c: char)
    requires d < 16
    ensures IsLowerHexChar(c)
  {
    if d < 10 then ('0' as int + d) as char else ('a' as int + d - 10) as char
  }

  function HexCharValue(c: char): nat {
    if '0' <= c <= '9' then c as int - '0' as int
    else if 'a' <= c <= 'f' then c as int - 'a' as int + 10
    else 0
  }

  /** The k low hexadecimal digits of n, most significant first. */
  function HexDigits(n: nat, k: nat): (s: string)
    ensures |s| == k
    ensures forall i :: 0 <= i < k ==> IsLowerHexChar(s[i])
  {
    if k == 0 then [] else HexDigits(n / 16, k - 1) + [HexChar(n % 16)]
  }

  /** Reads a string of hexadecimal digits back as a number. */
  function HexValue(s: string): nat {
    if s == [] then 0 else HexValue(s[..|s| - 1]) * 16 + HexCharValue(s[|s| - 1])
  }

  lemma HexCharRoundTrip(d: nat)
    requires d < 16
    ensures HexCharValue(HexChar(d)) == d
  {
  }

  /** Writing a number below 16^k with k digits loses nothing. */
  lemma {:induction false} HexRoundTrip(n: nat, k: nat)
    requires n < Pow16(k)
    ensures HexValue(HexDigits(n, k)) == n
  {
    if k > 0 {
      var s := HexDigits(n, k);
      assert s[..|s| - 1] == HexDigits(n / 16, k - 1);
      assert n / 16 < Pow16(k - 1);
      HexRoundTrip(n / 16, k - 1);
      HexCharRoundTrip(n % 16);
    }
  }

  /** The token as it appears in a file name: `uuid4().hex[:8]`. */
  function TokenHex(t: Token): (s: string)
    ensures |s| == 8
    ensures forall i :: 0 <= i < 8 ==> IsLowerHexChar(s[i])
    ensures HexValue(s) == t
  {
    assert Pow16(8) == 0x1_0000_0000;
    HexRoundTrip(t, 8);
    HexDigits(t, 8)
  }

  // ---------------------------------------------------------------------
  // File names, URLs and descriptors (save_figure)
  // ---------------------------------------------------------------------

  /** `f"{prefix}_{token}.png"` */
  function FileName(prefix: string, t: Token): string {
    prefix + "_" + TokenHex(t) + ".png"
  }

  /** A file name is the prefix, an underscore, eight lower-case hex digits
      that read back as the token, and the `.png` extension. */
  lemma FileNameShape(prefix: string, t: Token)
    ensures |FileName(prefix, t)| == |prefix| + 13
    ensures FileName(prefix, t)[..|prefix|] == prefix && FileName(prefix, t)[|prefix|] == '_'
    ensures forall i :: |prefix| < i <= |prefix| + 8 ==> IsLowerHexChar(FileName(prefix, t)[i])
    ensures HexValue(FileName(prefix, t)[|prefix| + 1..|prefix| + 9]) == t
    ensures FileName(prefix, t)[|prefix| + 9..] == ".png"
  {
    var name := FileName(prefix, t);
    assert name[|prefix| + 1..|prefix| + 9] == TokenHex(t);
    assert forall i :: |prefix| < i <= |prefix| + 8 ==> name[i] == TokenHex(t)[i - |prefix| - 1];
  }

  /** Two file names are equal only when they were built from the same
      prefix and the same token. */
  lemma FileNameInjective(p1: string, t1: Token, p2: string, t2: Token)
    requires FileName(p1, t1) == FileName(p2, t2)
    ensures p1 == p2 && t1 == t2
  {
    FileNameShape(p1, t1);
    FileNameShape(p2, t2);
    var name := FileName(p1, t1);
    assert |p1| == |p2|;
    assert p1 == name[..|p1|] == p2;
    assert TokenHex(t1) == name[|p1| + 1..|p1| + 9] == TokenHex(t2);
  }

  /** A file name built from a prefix without `/` is one path segment, so
      the image route can reach it. */
  lemma FileNameIsSegment(prefix: string, t: Token)
    requires '/' !in prefix
    ensures IsSegment(FileName(prefix, t))
  {
    var hex := TokenHex(t);
    assert '/' !in hex by {
      forall i | 0 <= i < |hex|
        ensures hex[i] != '/'
      {
        assert IsLowerHexChar(hex[i]);
      }
    }
    assert FileName(prefix, t) == prefix + ("_" + hex + ".png");
  }

  /** `f"/api/images/{filename}"` */
  function ImageUrl(filename: string): string {
    UrlPrefix + filename
  }

  /** What the `<filename>` converter accepts: one non-empty path segment. */
  predicate IsSegment(name: string) {
    |name| > 0 && '/' !in name
  }

  /** The file name the route `/api/images/<filename>` extracts from a path;
      None when the path does not match the route, which is answered 404
      before `serve_image` runs. */
  function RouteFileName(path: string): (r: Option<string>)
    ensures r.Some? ==> ImageUrl(r.value) == path && IsSegment(r.value)
    ensures r.None? ==> forall name :: IsSegment(name) ==> ImageUrl(name) != path
  {
    if |path| >= |UrlPrefix| && path[..|UrlPrefix|] == UrlPrefix && IsSegment(path[|UrlPrefix|..])
    then Some(path[|UrlPrefix|..])
    else None
  }

  /** The url of a descriptor leads back to its file name. */
  lemma UrlRoutesToFileName(filename: string)
    requires IsSegment(filename)
    ensures RouteFileName(ImageUrl(filename)) == Some(filename)
  {
    assert ImageUrl(filename)[..|UrlPrefix|] == UrlPrefix;
    assert ImageUrl(filename)[|UrlPrefix|..] == filename;
  }

  /** The JSON object `save_figure` returns; the timestamp is the clock
      reading in seconds. */
  datatype Descriptor = Descriptor(filename: string, url: string, base64: string, timestamp: real)

  /** The descriptor of an image stored under `filename`; `encode` is the
      base64 encoder. */
  function Describe(filename: string, bytes: Bytes, now: real, encode: Bytes -> string): (d: Descriptor)
    ensures d.filename == filename
    ensures IsSegment(filename) ==> RouteFileName(d.url) == Some(filename)
    ensures |d.base64| >= |DataUriPrefix| && d.base64[..|DataUriPrefix|] == DataUriPrefix
    ensures d.base64[|DataUriPrefix|..] == encode(bytes)
  {
    var d := Descriptor(filename, ImageUrl(filename), DataUriPrefix + encode(bytes), now);
    if IsSegment(filename) then UrlRoutesToFileName(filename); d else d
  }

  // ---------------------------------------------------------------------
  // Retrieval (serve_image)
  // ---------------------------------------------------------------------

  /** Found: the file is sent with the PNG mime type. NotFound: 404, when
      `os.path.exists` is false (no such name, or a dangling link).
      SendFailed: the name exists but is not a regular file, so sending it
      raises, which the framework answers with 500. */
  datatype ServeResult = Image(bytes: Bytes, mimetype: string) | NotFound | SendFailed

  function ServeImage(dir: Directory, filename: string): (r: ServeResult)
    ensures r.NotFound? <==> filename !in dir || dir[filename].DanglingLink?
    ensures r.Image? <==> filename in dir && dir[filename].RegularFile?
    ensures r.Image? ==> r.bytes == dir[filename].bytes && r.mimetype == PngMimeType
  {
    if filename !in dir then NotFound
    else match dir[filename]
      case RegularFile(bytes, _) => Image(bytes, PngMimeType)
      case DanglingLink => NotFound
      case OtherEntry => SendFailed
  }

  /** A file just written is served with exactly the bytes written, and no
      other name changes its answer. */
  lemma ServeAfterWrite(dir: Directory, name: string, bytes: Bytes, now: real, other: string)
    ensures ServeImage(dir[name := RegularFile(bytes, now)], name) == Image(bytes, PngMimeType)
    ensures other != name ==> ServeImage(dir[name := RegularFile(bytes, now)], other) == ServeImage(dir, other)
  {
  }

  // ---------------------------------------------------------------------
  // Expiry sweep (cleanup_old_images)
  // ---------------------------------------------------------------------

  /** A regular file whose age at `now` is strictly more than 24 hours. */
  predicate Expired(e: Entry, now: real) {
    e.RegularFile? && now - e.mtime > RetentionSeconds
  }

  function ExpiredNames(dir: Directory, now: real): set<string> {
    set name | name in dir && Expired(dir[name], now)
  }

  function Survivors(dir: Directory, now: real): Directory {
    map name | name in dir && !Expired(dir[name], now) :: dir[name]
  }

  /** The survivors are the directory less the expired names. */
  lemma SurvivorsAreTheRest(dir: Directory, now: real)
    ensures Survivors(dir, now) == dir - ExpiredNames(dir, now)
  {
  }

  /** The sweep splits the directory: every entry is either deleted or kept,
      so the deleted count and the kept entries add up to the whole. */
  lemma SweepPartitions(dir: Directory, now: real)
    ensures ExpiredNames(dir, now) <= dir.Keys
    ensures Survivors(dir, now).Keys == dir.Keys - ExpiredNames(dir, now)
    ensures |ExpiredNames(dir, now)| + |Survivors(dir, now)| == |dir|
  {
    var gone := ExpiredNames(dir, now);
    var kept := Survivors(dir, now);
    assert kept.Keys == dir.Keys - gone;
    assert dir.Keys == gone + kept.Keys;
    assert |dir.Keys| == |gone| + |kept.Keys|;
  }

  /** A second sweep at the same instant finds nothing to delete. */
  lemma SweepIdempotent(dir: Directory, now: real)
    ensures ExpiredNames(Survivors(dir, now), now) == {}
    ensures Survivors(Survivors(dir, now), now) == Survivors(dir, now)
  {
  }

  /** Only the age of an entry decides: an entry written at most 24 hours
      before the sweep is kept and still served, whatever else is swept. */
  lemma SweepKeepsRecent(dir: Directory, name: string, now: real)
    requires name in dir && dir[name].RegularFile? && now - dir[name].mtime <= RetentionSeconds
    ensures name !in ExpiredNames(dir, now)
    ensures ServeImage(Survivors(dir, now), name) == ServeImage(dir, name)
  {
  }

  /** After the sweep an expired file is gone: retrieving it gives 404. */
  lemma SweptIsNotFound(dir: Directory, name: string, now: real)
    requires name in dir && Expired(dir[name], now)
    ensures ServeImage(Survivors(dir, now), name) == NotFound
  {
  }

  /** One file 25 hours old beside files younger than 24 hours: the sweep
      deletes exactly that one. */
  lemma StaleFileIsTheOnlyOneSwept(dir: Directory, name: string, bytes: Bytes, now: real)
    requires forall other :: other in dir && other != name ==> !Expired(dir[other], now)
    ensures ExpiredNames(dir[name := RegularFile(bytes, now - 90000.0)], now) == {name}
    ensures |ExpiredNames(dir[name := RegularFile(bytes, now - 90000.0)], now)| == 1
  {
    var d := dir[name := RegularFile(bytes, now - 90000.0)];
    assert name in ExpiredNames(d, now);
    assert ExpiredNames(d, now) == {name};
  }

  /** One step of the sweep over `pending`: the entry examined is still
      present and unchanged, and deleting it exactly when it is expired
      keeps the deleted names equal to the expired ones already examined. */
  lemma SweepStep(dir: Directory, now: real, removed: set<string>, pending: set<string>, name: string)
    requires pending <= dir.Keys && name in pending
    requires removed == ExpiredNames(dir, now) - pending
    ensures name !in removed && name in dir - removed && (dir - removed)[name] == dir[name]
    ensures Expired(dir[name], now) ==>
      && removed + {name} == ExpiredNames(dir, now) - (pending - {name})
      && (dir - removed) - {name} == dir - (removed + {name})
      && |removed + {name}| == |removed| + 1
    ensures !Expired(dir[name], now) ==> removed == ExpiredNames(dir, now) - (pending - {name})
  {
  }

  /** The image directory, updated in place by `save_figure` and by the
      sweep. */
  class ImageDirectory {
    var files: Directory

    constructor (initial: Directory)
      ensures files == initial
    {
      files := initial;
    }

    /** `fig.savefig(filepath)`: creates or overwrites the file and stamps
        it with the current time. */
    method Write(name: string, bytes: Bytes, now: real)
      modifies this
      ensures files == old(files)[name := RegularFile(bytes, now)]
    {
      files := files[name := RegularFile(bytes, now)];
    }

    /** `cleanup_old_images`: reads the clock once, walks the listing in
        whatever order it comes and removes every regular file older than
        the retention window; returns how many it removed. */
    method Sweep(now: real) returns (deleted: nat)
      modifies this
      ensures files == Survivors(old(files), now)
      ensures deleted == |ExpiredNames(old(files), now)|
    {
      var pending := files.Keys;
      ghost var removed: set<string> := {};
      deleted := 0;
      while pending != {}
        invariant pending <= old(files).Keys
        invariant removed == ExpiredNames(old(files), now) - pending
        invariant files == old(files) - removed
        invariant deleted == |removed|
        decreases pending
      {
        var name :| name in pending;
        SweepStep(old(files), now, removed, pending, name);
        if name in files && Expired(files[name], now) {
          files := files - {name};
          removed := removed + {name};
          deleted := deleted + 1;
        }
        pending := pending - {name};
      }
      SurvivorsAreTheRest(old(files), now);
    }
  }
}
