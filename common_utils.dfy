/** The string rules of the download and extract utilities: the file name
    `download_url` derives from a URL, the output name `extract_bz2` and
    `extract_gz` derive from an archive path, and the POSIX path join both
    use. */
module CommonUtils {
  import opened Py

  // ---------------------------------------------------------------------
  // str methods

  /** The position of the last c in s, or -1 without one. */
  function LastIndex(s: string, c: char): (r: int)
    ensures -1 <= r < |s|
    ensures r >= 0 ==> s[r] == c
    ensures forall k :: r < k < |s| ==> s[k] != c
  {
    if s == [] then -1
    else if s[|s| - 1] == c then |s| - 1
    else LastIndex(s[..|s| - 1], c)
  }

  /** The position of the first c in s, or |s| without one. */
  function FirstIndex(s: string, c: char): (r: nat)
    ensures r <= |s|
    ensures r < |s| ==> s[r] == c
    ensures forall k :: 0 <= k < r ==> s[k] != c
  {
    if s == [] then 0
    else if s[0] == c then 0
    else 1 + FirstIndex(s[1..], c)
  }

  /** Only the last occurrence has no occurrence after it. */
  lemma LastIndexUnique(s: string, c: char, j: int)
    requires -1 <= j < |s|
    requires j >= 0 ==> s[j] == c
    requires forall k :: j < k < |s| ==> s[k] != c
    ensures LastIndex(s, c) == j
  {
  }

  /** `s.rpartition(c)[2]`: what follows the last c, or all of s without one. */
  function AfterLast(s: string, c: char): (r: string)
  {
    s[LastIndex(s, c) + 1..]
  }

  /** `s.split(c)[0]`: what precedes the first c, or all of s without one. */
  function BeforeFirst(s: string, c: char): (r: string)
  {
    s[..FirstIndex(s, c)]
  }

  /** `s.split(c)`: the pieces between the occurrences of c, one more than
      there are occurrences; the last piece follows the last c. */
  function SplitOn(s: string, c: char): (r: seq<string>)
    ensures |r| >= 1
    decreases |s|
  {
    var j := LastIndex(s, c);
    if j < 0 then [s] else SplitOn(s[..j], c) + [s[j + 1..]]
  }

  /** `c.join(parts)`. */
  function Join(c: char, parts: seq<string>): string
  {
    if parts == [] then ""
    else if |parts| == 1 then parts[0]
    else parts[0] + [c] + Join(c, parts[1..])
  }

  lemma {:induction false} JoinSnoc(c: char, parts: seq<string>, x: string)
    requires parts != []
    ensures Join(c, parts + [x]) == Join(c, parts) + [c] + x
  {
    if |parts| > 1 {
      assert (parts + [x])[1..] == parts[1..] + [x];
      JoinSnoc(c, parts[1..], x);
    }
  }

  /** Joining the pieces of a split gives back the string. */
  lemma {:induction false} JoinSplit(s: string, c: char)
    ensures Join(c, SplitOn(s, c)) == s
    decreases |s|
  {
    var j := LastIndex(s, c);
    if j >= 0 {
      JoinSplit(s[..j], c);
      JoinSnoc(c, SplitOn(s[..j], c), s[j + 1..]);
      assert s == s[..j] + [c] + s[j + 1..];
    }
  }

  /** The last piece of a split is what follows the last separator. */
  lemma SplitLast(s: string, c: char)
    ensures SplitOn(s, c)[|SplitOn(s, c)| - 1] == AfterLast(s, c)
  {
    var j := LastIndex(s, c);
    if j >= 0 {
      var init := SplitOn(s[..j], c);
      assert SplitOn(s, c) == init + [s[j + 1..]];
    } else {
      assert SplitOn(s, c) == [s] && s[j + 1..] == s;
    }
  }

  /** There is a second piece exactly when the separator occurs. */
  lemma SplitCount(s: string, c: char)
    ensures |SplitOn(s, c)| == 1 <==> c !in s
  {
    var j := LastIndex(s, c);
    if j >= 0 {
      assert s[j] in s;
      assert |SplitOn(s, c)| == |SplitOn(s[..j], c)| + 1;
    }
  }

  // ---------------------------------------------------------------------
  // os.path

  /** `posixpath.join(a, b)`: an absolute b replaces a; otherwise b is
      appended after a separating '/' unless a is empty or ends in one. */
  function JoinPath(a: string, b: string): (r: string)
  {
    if |b| > 0 && b[0] == '/' then b
    else if a == "" || a[|a| - 1] == '/' then a + b
    else a + "/" + b
  }

  /** `posixpath.abspath` against the working directory, without the
      normalisation of "." and ".." components. */
  function AbsPath(cwd: string, path: string): (r: string)
    requires |cwd| > 0 && cwd[0] == '/'
    ensures |r| > 0 && r[0] == '/'
  {
    if |path| > 0 && path[0] == '/' then path else JoinPath(cwd, path)
  }

  // ---------------------------------------------------------------------
  // download_url

  /** `download_url`'s file name: the last '/'-segment of the URL, cut
      before its first '?' unless it starts with one; an empty segment fails
      at `filename[0]`. */
  function Filename(url: string): (r: Result<string>)
    ensures r.Err? <==> AfterLast(url, '/') == ""
    ensures r.Err? ==> r.error == IndexError
    ensures r.Ok? ==>
      var segment := AfterLast(url, '/');
      && '/' !in r.value
      && |r.value| <= |segment| && r.value == segment[..|r.value|]
      && (segment[0] == '?' ==> r.value == segment)
      && (segment[0] != '?' ==> '?' !in r.value && (|r.value| < |segment| ==> segment[|r.value|] == '?'))
  {
    var filename := AfterLast(url, '/');
    if filename == "" then Err(IndexError)
    else if filename[0] == '?' then Ok(filename)
    else Ok(BeforeFirst(filename, '?'))
  }

  /** Where `download_url` stores the file: the folder joined with the name. */
  function DownloadPath(url: string, folder: string): (r: Result<string>)
    ensures r.Ok? <==> Filename(url).Ok?
    ensures r.Ok? && folder != "" && folder[|folder| - 1] != '/' ==>
      r.value == folder + "/" + Filename(url).value
  {
    var filename :- Filename(url);
    Ok(JoinPath(folder, filename))
  }

  // ---------------------------------------------------------------------
  // extract_bz2 and extract_gz

  /** `'.'.join(path.split('.')[:-1])`. */
  function Stem(path: string): string
  {
    Join('.', SliceTo(SplitOn(path, '.'), -1))
  }

  /** The stem is the path up to its last '.', and empty without one. */
  lemma StemPrefix(path: string)
    ensures Stem(path) == path[..Max(0, LastIndex(path, '.'))]
  {
    var parts := SplitOn(path, '.');
    SplitAtMinusK(parts, 1);
    var j := LastIndex(path, '.');
    if j >= 0 {
      assert parts[..|parts| - 1] == SplitOn(path[..j], '.');
      JoinSplit(path[..j], '.');
    }
  }

  /** Putting back the last '.' and what follows it gives the path. */
  lemma StemSpec(path: string)
    ensures '.' !in path ==> Stem(path) == ""
    ensures '.' in path ==> Stem(path) + "." + AfterLast(path, '.') == path
  {
    StemPrefix(path);
    SplitCount(path, '.');
    var j := LastIndex(path, '.');
    if j >= 0 {
      assert path == path[..j] + "." + path[j + 1..];
    }
  }

  /** The file `extract_bz2` and `extract_gz` write, as written: the folder
      joined with the stem of the archive's absolute path. */
  function ExtractTarget(cwd: string, path: string, folder: string): (r: string)
    requires |cwd| > 0 && cwd[0] == '/'
  {
    JoinPath(folder, Stem(AbsPath(cwd, path)))
  }

  /** Whenever the path has a '.', its stem is absolute, so the join drops
      the folder and the output lands beside the archive. */
  lemma ExtractIgnoresFolder(cwd: string, path: string, folder: string)
    requires |cwd| > 0 && cwd[0] == '/'
    requires '.' in AbsPath(cwd, path)
    ensures ExtractTarget(cwd, path, folder) == Stem(AbsPath(cwd, path))
  {
    var p := AbsPath(cwd, path);
    StemPrefix(p);
    assert p[0] != '.';
  }

  /** A concrete case: "data/x.bz2" extracted into "/out" from "/home". */
  lemma ExtractExample()
    ensures ExtractTarget("/home", "data/x.bz2", "/out") == "/home/data/x"
  {
    var p := AbsPath("/home", "data/x.bz2");
    assert p == "/home/data/x.bz2";
    LastIndexUnique(p, '.', 12);
    StemPrefix(p);
    ExtractIgnoresFolder("/home", "data/x.bz2", "/out");
  }

  /** The intended output: the folder joined with the stem of the archive's
      file name. */
  function ExtractTargetFixed(path: string, folder: string): (r: string)
  {
    JoinPath(folder, Stem(AfterLast(path, '/')))
  }

  /** The corrected target always lies in the folder: it is the folder, a
      separating '/' when needed, and a name without '/'. */
  lemma ExtractTargetFixedSpec(path: string, folder: string)
    requires folder != "" && folder[|folder| - 1] != '/'
    ensures var name := Stem(AfterLast(path, '/'));
      && '/' !in name
      && ExtractTargetFixed(path, folder) == folder + "/" + name
  {
    var base := AfterLast(path, '/');
    StemPrefix(base);
    var name := Stem(base);
    assert forall k :: 0 <= k < |name| ==> name[k] == base[k];
  }

  /** For the example above the corrected rule gives "/out/x". */
  lemma ExtractFixedExample()
    ensures ExtractTargetFixed("data/x.bz2", "/out") == "/out/x"
  {
    LastIndexUnique("data/x.bz2", '/', 4);
    assert AfterLast("data/x.bz2", '/') == "x.bz2";
    LastIndexUnique("x.bz2", '.', 1);
    StemPrefix("x.bz2");
  }
}
