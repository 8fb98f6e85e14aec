/**
 * The download name of a generated map: the uploaded file's name with its
 * last extension removed (split at every dot, drop the last part, join the
 * rest with dots again), falling back to "image" when there is no file or
 * nothing is left, followed by "_normal_", the filter name and ".png".
 */
module FileName {

  datatype Option<T> = None | Some(value: T)

  /** The total number of characters in a list of parts. */
  function TotalLength(parts: seq<string>): nat
  {
    if parts == [] then 0 else TotalLength(parts[..|parts| - 1]) + |parts[|parts| - 1]|
  }

  /**
   * JavaScript's array `join`: the parts with one separator between each
   * neighbouring pair, so a non-empty list of parts adds one separator fewer
   * than it has parts.
   */
  function Join(parts: seq<string>, sep: char): (s: string)
    ensures |parts| >= 1 ==> |s| == TotalLength(parts) + |parts| - 1
    ensures parts == [] ==> s == []
  {
    if |parts| == 0 then []
    else if |parts| == 1 then parts[0]
    else Join(parts[..|parts| - 1], sep) + [sep] + parts[|parts| - 1]
  }

  /**
   * JavaScript's string `split` at one character: the maximal runs between
   * separators, always at least one (the empty string splits into one empty
   * part). Joining them gives `s` back.
   */
  function Split(s: string, sep: char): (parts: seq<string>)
    ensures |parts| >= 1
    ensures forall p | p in parts :: sep !in p
    ensures Join(parts, sep) == s
  {
    if s == [] then [[]]
    else
      var init, c := Split(s[..|s| - 1], sep), s[|s| - 1];
      assert s == s[..|s| - 1] + [c];
      if c == sep then
        init + [[]]
      else
        var n := |init|;
        var parts := init[..n - 1] + [init[n - 1] + [c]];
        assert parts[..n - 1] == init[..n - 1];
        assert (init + [[]])[..n] == init;
        parts
  }

  /** Splitting undoes joining, for parts that contain no separator. */
  lemma {:induction false} SplitJoin(parts: seq<string>, sep: char)
    requires |parts| >= 1
    requires forall p | p in parts :: sep !in p
    ensures Split(Join(parts, sep), sep) == parts
    decreases |parts|
  {
    var n := |parts|;
    if n == 1 {
      SplitRun(parts[0], sep);
    } else {
      var init := parts[..n - 1];
      assert parts == init + [parts[n - 1]];
      assert forall p | p in init :: p in parts;
      SplitJoin(init, sep);
      SplitAfterSeparator(Join(init, sep), parts[n - 1], sep);
    }
  }

  /** Splitting a string with one more character: a separator opens a new empty part, anything else extends the last part. */
  lemma SplitSnoc(s: string, c: char, sep: char)
    ensures var init := Split(s, sep);
            Split(s + [c], sep)
            == if c == sep then init + [[]] else init[..|init| - 1] + [init[|init| - 1] + [c]]
  {
    assert (s + [c])[..|s + [c]| - 1] == s;
    assert (s + [c])[|s + [c]| - 1] == c;
  }

  /** Splitting `a + [sep] + b`, where `b` has no separator, splits `a` and adds `b` as the last part. */
  lemma {:induction false} SplitAfterSeparator(a: string, b: string, sep: char)
    requires sep !in b
    ensures Split(a + [sep] + b, sep) == Split(a, sep) + [b]
    decreases |b|
  {
    if b == [] {
      assert a + [sep] + b == a + [sep];
      SplitSnoc(a, sep, sep);
    } else {
      var b', c := b[..|b| - 1], b[|b| - 1];
      assert b == b' + [c];
      assert a + [sep] + b == (a + [sep] + b') + [c];
      SplitAfterSeparator(a, b', sep);
      SplitSnoc(a + [sep] + b', c, sep);
      var init := Split(a, sep) + [b'];
      assert init[..|init| - 1] == Split(a, sep);
    }
  }

  /** A string without separators splits into itself alone. */
  lemma {:induction false} SplitRun(b: string, sep: char)
    requires sep !in b
    ensures Split(b, sep) == [b]
    decreases |b|
  {
    if b != [] {
      var b', c := b[..|b| - 1], b[|b| - 1];
      assert b == b' + [c];
      SplitRun(b', sep);
      SplitSnoc(b', c, sep);
    }
  }

  /** The file name split at every dot, with every part but the last joined again by dots. */
  function DropExtension(name: string): string
  {
    var parts := Split(name, '.');
    Join(parts[..|parts| - 1], '.')
  }

  /**
   * Reference definition: the text before the last '.', or the empty string
   * when there is no '.' at all.
   */
  function BeforeLastDot(s: string): (r: string)
    ensures |r| <= |s| && r == s[..|r|]
    ensures '.' in s ==> |r| < |s| && s[|r|] == '.' && '.' !in s[|r| + 1..]
    ensures '.' !in s ==> r == []
  {
    if s == [] then []
    else if s[|s| - 1] == '.' then s[..|s| - 1]
    else
      var r := BeforeLastDot(s[..|s| - 1]);
      assert s == s[..|s| - 1] + [s[|s| - 1]];
      assert '.' in s ==> '.' in s[..|s| - 1];
      assert '.' in s ==> s[|r| + 1..] == s[..|s| - 1][|r| + 1..] + [s[|s| - 1]];
      r
  }

  /** Dropping the extension keeps exactly the text before the last dot. */
  lemma {:induction false} DropExtensionIsBeforeLastDot(s: string)
    ensures DropExtension(s) == BeforeLastDot(s)
    decreases |s|
  {
    if s != [] {
      var s', c := s[..|s| - 1], s[|s| - 1];
      var init := Split(s', '.');
      var n := |init|;
      assert s == s' + [c];
      SplitSnoc(s', c, '.');
      if c == '.' {
        assert Split(s, '.') == init + [[]];
        assert (init + [[]])[..n] == init;
      } else {
        DropExtensionIsBeforeLastDot(s');
        var parts := init[..n - 1] + [init[n - 1] + [c]];
        assert Split(s, '.') == parts;
        assert parts[..n - 1] == init[..n - 1];
      }
    }
  }

  /** The text before the last dot of `a + "." + b`, where `b` has no dot, is `a`. */
  lemma {:induction false} BeforeLastDotOfSuffix(a: string, b: string)
    requires '.' !in b
    ensures BeforeLastDot(a + ['.'] + b) == a
    decreases |b|
  {
    if b == [] {
      assert (a + ['.'] + b)[..|a|] == a;
    } else {
      var b', c := b[..|b| - 1], b[|b| - 1];
      assert b == b' + [c];
      assert (a + ['.'] + b)[..|a + ['.'] + b| - 1] == a + ['.'] + b';
      BeforeLastDotOfSuffix(a, b');
    }
  }

  /** The stem of the download name: the file name without its extension, or "image" when that is empty or there is no file. */
  function BaseName(file: Option<string>): (base: string)
    ensures base != []
    ensures file.None? ==> base == "image"
  {
    match file
    case None => "image"
    case Some(name) =>
      var stem := DropExtension(name);
      if stem == [] then "image" else stem
  }

  /** The stem is the text before the last dot of the file name, or "image" when that text is empty. */
  lemma BaseNameIsBeforeLastDot(name: string)
    ensures var before := BeforeLastDot(name);
            BaseName(Some(name)) == if before == [] then "image" else before
  {
    DropExtensionIsBeforeLastDot(name);
  }

  /** A file name without any dot (or with its only dot first) falls back to "image". */
  lemma NoExtensionFallsBack(name: string)
    requires '.' !in name || (name != [] && name[0] == '.' && '.' !in name[1..])
    ensures BaseName(Some(name)) == "image"
  {
    BaseNameIsBeforeLastDot(name);
  }

  /** The exported file's name: the stem, then "_normal_", then the filter name, then the ".png" extension. */
  function DownloadName(file: Option<string>, filter: string): string
  {
    BaseName(file) + "_normal_" + filter + ".png"
  }

  /**
   * The download name is the stem, "_normal_" and the filter, with ".png"
   * as its extension: dropping that extension again gives back exactly the
   * stem, "_normal_" and the filter, whatever dots the filter holds.
   */
  lemma DownloadNameSpec(file: Option<string>, filter: string)
    ensures var name, stem := DownloadName(file, filter), BaseName(file) + "_normal_" + filter;
            |name| == |stem| + 4 && name[..|stem|] == stem && name[|stem|..] == ".png"
            && DropExtension(name) == stem
  {
    var stem := BaseName(file) + "_normal_" + filter;
    assert DownloadName(file, filter) == stem + ['.'] + "png";
    BeforeLastDotOfSuffix(stem, "png");
    DropExtensionIsBeforeLastDot(DownloadName(file, filter));
  }
}
