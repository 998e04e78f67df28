/**
 * The two path-trimming heuristics applied by `Trace` in errp.go.
 *
 * Both are anchored regular expressions of the shape `/(X\.Y)$`: a slash,
 * a non-empty run of "name" characters, one dot, a non-empty run of
 * extension characters, and the end of the string. On a match the string is
 * replaced by the captured group (everything after that slash); otherwise it
 * is kept as it is. The file pattern allows only word characters after the
 * dot, the function pattern allows the whole name class on both sides.
 *
 * The model states the match declaratively (`MatchAt`) and computes the
 * trimmed string by searching for the last slash and the first dot after it
 * (`Trim`); `Trim`'s contract ties the two together.
 */
module TraceTrim {

  /**
   * Go's `\w` (and `\d`, a subset of it) under the `(?i)` flag: ASCII letters,
   * digits and underscore, plus the two non-ASCII characters that case folding
   * adds to them, U+017F (long s, folds with `s`) and U+212A (Kelvin sign,
   * folds with `k`).
   */
  predicate IsWordChar(c: char) {
    ('A' <= c <= 'Z') || ('a' <= c <= 'z') || ('0' <= c <= '9') || c == '_'
    || c == '\U{017F}' || c == '\U{212A}'
  }

  /** The bracketed class `[\w\d_+*()\[\]%=\-]` used before the dot. */
  predicate IsNameChar(c: char) {
    IsWordChar(c) || c == '+' || c == '*' || c == '(' || c == ')' || c == '[' || c == ']'
    || c == '%' || c == '=' || c == '-'
  }

  /** Which class the text after the dot is drawn from. */
  datatype CharClass = Word | Name

  predicate InClass(c: char, k: CharClass) {
    match k
    case Word => IsWordChar(c)
    case Name => IsNameChar(c)
  }

  /**
   * The regular expression `/([name]+\.[ext]+)$` matches `s` with its slash at
   * index `slash` and its dot at index `dot`.
   */
  predicate MatchAt(s: string, slash: int, dot: int, ext: CharClass) {
    && 0 <= slash && slash + 1 < dot && dot + 1 < |s|
    && s[slash] == '/' && s[dot] == '.'
    && (forall k :: slash < k < dot ==> IsNameChar(s[k]))
    && (forall k :: dot < k < |s| ==> InClass(s[k], ext))
  }

  predicate NoSlash(s: string) {
    forall k :: 0 <= k < |s| ==> s[k] != '/'
  }

  ghost predicate ExactlyOneDot(s: string) {
    exists d :: 0 <= d < |s| && s[d] == '.' && forall k :: 0 <= k < |s| && k != d ==> s[k] != '.'
  }

  /**
   * `r` is the last slash-separated segment of `s`, a proper suffix of it,
   * and contains exactly one dot.
   */
  ghost predicate TrimmedFrom(r: string, s: string) {
    |r| < |s| && s[|s| - |r| - 1..] == "/" + r && NoSlash(r) && ExactlyOneDot(r)
  }

  /** Index of the last '/' in `s` before position `n`, or -1 when there is none. */
  function LastSlashBefore(s: string, n: nat): (r: int)
    requires n <= |s|
    ensures -1 <= r < n
    ensures r >= 0 ==> s[r] == '/'
    ensures forall k :: r < k < n ==> s[k] != '/'
  {
    if n == 0 then -1
    else if s[n - 1] == '/' then n - 1
    else LastSlashBefore(s, n - 1)
  }

  /** Index of the last '/' in `s`, or -1 when there is none. */
  function LastSlash(s: string): int {
    LastSlashBefore(s, |s|)
  }

  /** Index of the first '.' in `s` at or after position `i`, or -1 when there is none. */
  function DotFrom(s: string, i: nat): (r: int)
    requires i <= |s|
    ensures r == -1 || i <= r < |s|
    ensures r >= 0 ==> s[r] == '.'
    ensures forall k :: i <= k < |s| && (r < 0 || k < r) ==> s[k] != '.'
    decreases |s| - i
  {
    if i == |s| then -1
    else if s[i] == '.' then i
    else DotFrom(s, i + 1)
  }

  /**
   * Replace `s` by its last path segment when the pattern matches, keep it
   * otherwise. The result is exactly the regular expression's captured group
   * when a match exists, and `s` itself when none does; a trimmed result has
   * no slash, exactly one dot, and `s` ends with a slash followed by it.
   */
  function Trim(s: string, ext: CharClass): (r: string)
    ensures forall slash, dot :: MatchAt(s, slash, dot, ext) ==> r == s[slash + 1..]
    ensures (forall slash, dot :: !MatchAt(s, slash, dot, ext)) ==> r == s
    ensures r == s || TrimmedFrom(r, s)
  {
    var slash := LastSlash(s);
    if 0 <= slash && MatchAt(s, slash, DotFrom(s, slash + 1), ext) then
      MatchIsUnique(s, ext);
      TrimmedShape(s, slash, DotFrom(s, slash + 1), ext);
      s[slash + 1..]
    else
      MatchIsUnique(s, ext);
      s
  }

  /**
   * A match can only use the last slash of `s` and the first dot after it,
   * so the regular expression has at most one way to match.
   */
  lemma MatchIsUnique(s: string, ext: CharClass)
    ensures forall slash, dot :: MatchAt(s, slash, dot, ext) ==>
      slash == LastSlash(s) && dot == DotFrom(s, slash + 1)
  {
    forall slash, dot | MatchAt(s, slash, dot, ext)
      ensures slash == LastSlash(s) && dot == DotFrom(s, slash + 1)
    {
      assert forall k :: slash < k < |s| ==> s[k] != '/' by {
        forall k | slash < k < |s| ensures s[k] != '/' {
          if k > dot { assert InClass(s[k], ext); }
        }
      }
      var ls := LastSlash(s);
      assert ls >= slash;
      var d := DotFrom(s, slash + 1);
      assert d <= dot;
      assert forall k :: slash < k < dot ==> s[k] != '.' by {
        forall k | slash < k < dot ensures s[k] != '.' { assert IsNameChar(s[k]); }
      }
    }
  }

  /** The captured group has no slash, exactly one dot, and follows a slash. */
  lemma TrimmedShape(s: string, slash: int, dot: int, ext: CharClass)
    requires MatchAt(s, slash, dot, ext)
    ensures TrimmedFrom(s[slash + 1..], s)
  {
    var r := s[slash + 1..];
    assert s[|s| - |r| - 1..] == "/" + r;
    forall k | 0 <= k < |r| ensures r[k] != '/' && (k != dot - slash - 1 ==> r[k] != '.') {
      assert r[k] == s[slash + 1 + k];
      if slash + 1 + k > dot { assert InClass(s[slash + 1 + k], ext); }
    }
    assert r[dot - slash - 1] == '.';
  }

  /** File trimming (errp.go, line 85): the extension is drawn from `\w`. */
  function TrimFile(file: string): (r: string)
    ensures forall slash, dot :: MatchAt(file, slash, dot, Word) ==> r == file[slash + 1..]
    ensures (forall slash, dot :: !MatchAt(file, slash, dot, Word)) ==> r == file
  {
    Trim(file, Word)
  }

  /** Function-name trimming (errp.go, line 91): the name class on both sides of the dot. */
  function TrimFunction(funcName: string): (r: string)
    ensures forall slash, dot :: MatchAt(funcName, slash, dot, Name) ==> r == funcName[slash + 1..]
    ensures (forall slash, dot :: !MatchAt(funcName, slash, dot, Name)) ==> r == funcName
  {
    Trim(funcName, Name)
  }

  /** A string without any slash is never trimmed. */
  lemma {:induction false} NoSlashKept(s: string, ext: CharClass)
    requires NoSlash(s)
    ensures Trim(s, ext) == s
  {
    forall slash, dot ensures !MatchAt(s, slash, dot, ext) {
      assert 0 <= slash < |s| ==> s[slash] != '/';
    }
  }

  /**
   * Two dots after the last slash defeat both patterns: the string is kept.
   * This is what happens to method names (`pkg.(*T).M`), closures
   * (`pkg.F.func1`) and generated files (`api.pb.go`).
   */
  lemma TwoDotsKept(s: string, ext: CharClass, i: int, j: int)
    requires LastSlash(s) < i < j < |s| && s[i] == '.' && s[j] == '.'
    ensures Trim(s, ext) == s
  {
    MatchIsUnique(s, ext);
    var ls := LastSlash(s);
    var d := DotFrom(s, ls + 1);
    assert 0 <= d <= i;
    if d < i {
      assert !InClass(s[i], ext);
    } else {
      assert !InClass(s[j], ext);
    }
    assert !MatchAt(s, ls, d, ext);
  }

  /**
   * Every file-pattern match is also a function-pattern match, at the same
   * slash and dot: the file pattern is the narrower of the two.
   */
  lemma FileMatchIsFunctionMatch(s: string, slash: int, dot: int)
    requires MatchAt(s, slash, dot, Word)
    ensures MatchAt(s, slash, dot, Name)
  {
    forall k | dot < k < |s| ensures InClass(s[k], Name) {
      assert InClass(s[k], Word);
    }
  }

  /** A qualified function name keeps its package and function after trimming. */
  lemma TrimFunctionExample()
    ensures TrimFunction("a/b/pkg.F") == "pkg.F"
  {
    var s := "a/b/pkg.F";
    assert MatchAt(s, 3, 7, Name);
  }

  /** A method name has two dots after the last slash, so it is kept whole. */
  lemma TrimFunctionKeepsMethod()
    ensures TrimFunction("a/pkg.(*T).M") == "a/pkg.(*T).M"
  {
    var s := "a/pkg.(*T).M";
    assert LastSlash(s) < 5;
    TwoDotsKept(s, Name, 5, 10);
  }

  /** A file path is reduced to its base name. */
  lemma TrimFileExample()
    ensures TrimFile("/src/errp/errp.go") == "errp.go"
  {
    var s := "/src/errp/errp.go";
    assert MatchAt(s, 9, 14, Word);
  }

  /** Case folding puts the long s into `\w`, so a base name made of it is still cut out. */
  lemma TrimFileFoldedExample()
    ensures TrimFile("/x/\U{017F}.go") == "\U{017F}.go"
  {
    var s := "/x/\U{017F}.go";
    assert MatchAt(s, 2, 4, Word);
  }

  /** The Kelvin sign is a word character too, so it may end a function name. */
  lemma TrimFunctionFoldedExample()
    ensures TrimFunction("a/pkg.\U{212A}") == "pkg.\U{212A}"
  {
    var s := "a/pkg.\U{212A}";
    assert MatchAt(s, 1, 5, Name);
  }

  /** A base name with two dots (a generated `api.pb.go`) leaves the path whole. */
  lemma TrimFileKeepsMultiDot()
    ensures TrimFile("/gen/api.pb.go") == "/gen/api.pb.go"
  {
    var s := "/gen/api.pb.go";
    assert LastSlash(s) < 8;
    TwoDotsKept(s, Word, 8, 11);
  }

  /** Without a slash the pattern cannot match, so a bare file name is kept. */
  lemma TrimFileKeepsBareName()
    ensures TrimFile("main.go") == "main.go"
  {
    NoSlashKept("main.go", Word);
  }
}
