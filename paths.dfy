/**
 * The path helpers a router uses when it works under a base path
 * (packages/boom-router-react/src/paths.js). Every helper is a pure
 * function over strings; JavaScript strings are modelled as `string`.
 */
module Paths {
  import opened Wrappers

  /** The escape marker: a target that starts with it is absolute and ignores the base. */
  const Marker: char := '~'

  predicate StartsWith(s: string, prefix: string) {
    |prefix| <= |s| && s[..|prefix|] == prefix
  }

  /** ASCII lower-casing of one character (Unicode case mapping is not modelled). */
  function LowerChar(c: char): char {
    if 'A' <= c <= 'Z' then (c as int + 32) as char else c
  }

  /** `String.prototype.toLowerCase`, restricted to ASCII letters. */
  function Lower(s: string): (r: string)
    ensures |r| == |s|
    ensures forall i :: 0 <= i < |s| ==> r[i] == LowerChar(s[i])
  {
    if s == [] then [] else [LowerChar(s[0])] + Lower(s[1..])
  }

  /** `s.slice(k)` for a non-negative `k`: empty once `k` runs past the end. */
  function SliceFrom(s: string, k: nat): string {
    if k <= |s| then s[k..] else ""
  }

  /** Two strings that differ at most in the ASCII case of their letters. */
  predicate SameUpToCase(a: string, b: string) {
    |a| == |b| && forall i :: 0 <= i < |a| ==> LowerChar(a[i]) == LowerChar(b[i])
  }

  /** The test in transformToRelativePath: `path` begins with `base`, ignoring case. */
  predicate BaseIsPrefix(base: string, path: string) {
    StartsWith(Lower(path), Lower(base))
  }

  /** What the non-escaping branch returns: the path past the base, or "/" when nothing is left. */
  function StripBase(base: string, path: string): string {
    var rest := SliceFrom(path, |base|);
    if rest == "" then "/" else rest
  }

  /**
   * transformToRelativePath as written. The selector is negated, so the
   * escape marker is added exactly when the path DOES start with the base,
   * and the base is stripped when it does not.
   */
  function TransformToRelativePath(base: string := "", path: string): (r: string)
    ensures r != ""
  {
    var isBasePartOfPath := !BaseIsPrefix(base, path);
    if isBasePartOfPath then StripBase(base, path) else [Marker] + path
  }

  /** transformToRelativePath as its doc comment describes it: escape only paths outside the base. */
  function TransformToRelativePathIntended(base: string := "", path: string): (r: string)
    ensures r != ""
  {
    if BaseIsPrefix(base, path) then StripBase(base, path) else [Marker] + path
  }

  /** transformToAbsolutePath: drop the marker, or prepend the base. */
  function TransformToAbsolutePath(to: string, base: string := ""): (r: string)
    ensures StartsWith(to, [Marker]) ==> [Marker] + r == to
    ensures !StartsWith(to, [Marker]) ==> StartsWith(r, base) && r[|base|..] == to
  {
    if StartsWith(to, [Marker]) then to[1..] else base + to
  }

  /** removeLeadingQuestionMark: at most the first `?` goes. */
  function RemoveLeadingQuestionMark(str: string): (r: string)
    ensures StartsWith(str, "?") ==> str == "?" + r
    ensures !StartsWith(str, "?") ==> r == str
  {
    if StartsWith(str, "?") then str[1..] else str
  }

  /**
   * decodeEscapeSequences, with `decodeURI` passed in as a partial decoder:
   * `None` stands for the URIError it throws on a malformed escape.
   */
  function DecodeEscapeSequences(decodeURI: string -> Option<string>, str: string): (r: string)
    ensures decodeURI(str).None? ==> r == str
    ensures decodeURI(str).Some? ==> r == decodeURI(str).value
  {
    match decodeURI(str)
    case Some(decoded) => decoded
    case None => str
  }

  // ---------------------------------------------------------------------------
  // transformToAbsolutePath

  /** A marked target is absolute: any two bases give the same result. */
  lemma AbsoluteIgnoresBaseWhenMarked(to: string, base1: string, base2: string)
    requires StartsWith(to, [Marker])
    ensures TransformToAbsolutePath(to, base1) == TransformToAbsolutePath(to, base2) == to[1..]
  {
  }

  /** With the default empty base an unmarked target comes back unchanged. */
  lemma AbsoluteDefaultBaseIsIdentity(to: string)
    requires !StartsWith(to, [Marker])
    ensures TransformToAbsolutePath(to) == to
  {
  }

  /** The cases exercised by the redirect tests under `base="/app"`. */
  lemma AbsoluteExamples()
    ensures TransformToAbsolutePath("/nested", "/app") == "/app/nested"
    ensures TransformToAbsolutePath("~/absolute", "/app") == "/absolute"
  {
    assert "/nested"[..1][0] == '/';
  }

  // ---------------------------------------------------------------------------
  // transformToRelativePath as written

  /** Lower-casing maps strings that agree up to case to the same string. */
  lemma {:induction false} LowerOfSameUpToCase(a: string, b: string)
    requires SameUpToCase(a, b)
    ensures Lower(a) == Lower(b)
  {
    if a != [] {
      assert SameUpToCase(a[1..], b[1..]) by {
        forall i | 0 <= i < |a[1..]| ensures LowerChar(a[1..][i]) == LowerChar(b[1..][i]) {
          assert a[1..][i] == a[i + 1] && b[1..][i] == b[i + 1];
        }
      }
      LowerOfSameUpToCase(a[1..], b[1..]);
    }
  }

  /** The branch taken does not depend on the letter case of either argument. */
  lemma BranchIgnoresCase(base: string, base': string, path: string, path': string)
    requires SameUpToCase(base, base') && SameUpToCase(path, path')
    ensures BaseIsPrefix(base, path) <==> BaseIsPrefix(base', path')
    ensures StartsWith(TransformToRelativePath(base, path), [Marker] + path)
        <==> StartsWith(TransformToRelativePath(base', path'), [Marker] + path')
  {
    LowerOfSameUpToCase(base, base');
    LowerOfSameUpToCase(path, path');
    EscapeBranchShape(base, path);
    EscapeBranchShape(base', path');
  }

  /** The marked result `"~" + path` appears exactly when the base IS a prefix of the path. */
  lemma EscapeBranchShape(base: string, path: string)
    ensures BaseIsPrefix(base, path) <==> StartsWith(TransformToRelativePath(base, path), [Marker] + path)
    ensures BaseIsPrefix(base, path) ==> TransformToRelativePath(base, path) == [Marker] + path
  {
    var r := TransformToRelativePath(base, path);
    if !BaseIsPrefix(base, path) {
      // the stripped branch is "/" or no longer than the path, so it cannot begin with "~" + path
      if r == "/" {
        assert r[0] != Marker;
      } else {
        assert |r| <= |path|;
      }
    }
  }

  /** Whenever the escape branch is taken, resolving the result against any base gives the path back. */
  lemma RelativeEscapeRoundTrip(base: string, path: string, anyBase: string)
    requires BaseIsPrefix(base, path)
    ensures TransformToAbsolutePath(TransformToRelativePath(base, path), anyBase) == path
  {
  }

  /** Outside the escape branch the result is the part of the path past `|base|` characters, or "/". */
  lemma RelativeStripBranch(base: string, path: string)
    requires !BaseIsPrefix(base, path)
    ensures |base| < |path| ==> TransformToRelativePath(base, path) == path[|base|..]
    ensures |base| >= |path| ==> TransformToRelativePath(base, path) == "/"
  {
  }

  /**
   * The inversion against the doc comment: a path inside the base is marked
   * absolute, and a path outside the base loses its first `|base|` characters.
   */
  lemma RelativeInvertsDocComment()
    ensures TransformToRelativePath("/app", "/app/users") == "~/app/users"
    ensures TransformToRelativePath("/app", "/other") == "er"
  {
    var base, inside := "/app", "/app/users";
    PrefixIsBaseIsPrefix(base, inside);
    RelativeEscapeRoundTrip(base, inside, "");
    MismatchIsNotBaseIsPrefix(base, "/other", 1);
    assert "/other"[4..] == "er";
  }

  /** The prefix test ignores case, so a differently cased base still marks the path. */
  lemma RelativeMarksCaseVariant()
    ensures TransformToRelativePath("/App", "/app") == "~/app"
  {
    PrefixIsBaseIsPrefix("/app", "/app");
    assert SameUpToCase("/App", "/app");
    LowerOfSameUpToCase("/App", "/app");
  }

  /** With the default empty base every path is marked absolute. */
  lemma EmptyBaseMarksEverything(path: string)
    ensures TransformToRelativePath(path := path) == [Marker] + path
  {
    PrefixIsBaseIsPrefix("", path);
  }

  // ---------------------------------------------------------------------------
  // transformToRelativePath as documented

  /** A literal prefix is also a prefix once both sides are lower-cased. */
  lemma PrefixIsBaseIsPrefix(base: string, path: string)
    requires StartsWith(path, base)
    ensures BaseIsPrefix(base, path)
  {
    assert Lower(path)[..|base|] == Lower(base) by {
      forall i | 0 <= i < |base| ensures Lower(path)[..|base|][i] == Lower(base)[i] {
        assert path[i] == base[i];
      }
    }
  }

  /** One position where the letters differ, ignoring case, rules the base out as a prefix. */
  lemma MismatchIsNotBaseIsPrefix(base: string, path: string, i: nat)
    requires i < |base| && i < |path| && LowerChar(base[i]) != LowerChar(path[i])
    ensures !BaseIsPrefix(base, path)
  {
    assert Lower(path)[i] != Lower(base)[i];
  }

  /** A path strictly inside the base: relative then absolute against the same base is the identity. */
  lemma IntendedRoundTrip(base: string, path: string)
    requires StartsWith(path, base) && |base| < |path|
    ensures !StartsWith(path[|base|..], [Marker]) ==>
      TransformToAbsolutePath(TransformToRelativePathIntended(base, path), base) == path
    ensures TransformToRelativePathIntended(base, path) == path[|base|..]
  {
    PrefixIsBaseIsPrefix(base, path);
    assert path == base + path[|base|..];
  }

  /** A path outside the base is marked, and resolving it against any base gives it back. */
  lemma IntendedEscapeRoundTrip(base: string, path: string, anyBase: string)
    requires !BaseIsPrefix(base, path)
    ensures TransformToRelativePathIntended(base, path) == [Marker] + path
    ensures TransformToAbsolutePath(TransformToRelativePathIntended(base, path), anyBase) == path
  {
  }

  /** The base itself maps to the base's root "/". */
  lemma IntendedBaseIsRoot(base: string)
    ensures TransformToRelativePathIntended(base, base) == "/"
  {
    PrefixIsBaseIsPrefix(base, base);
  }

  /** With the default empty base every rooted path is already relative. */
  lemma IntendedEmptyBaseIsIdentity(path: string)
    requires StartsWith(path, "/")
    ensures TransformToRelativePathIntended(path := path) == path
  {
    PrefixIsBaseIsPrefix("", path);
  }

  /** The documented example of a path inside the base "/app", in either case. */
  lemma IntendedInsideExample()
    ensures TransformToRelativePathIntended("/app", "/app/users") == "/users"
    ensures TransformToRelativePathIntended("/APP", "/app/users") == "/users"
  {
    PrefixIsBaseIsPrefix("/app", "/app/users");
    assert SameUpToCase("/APP", "/app");
    LowerOfSameUpToCase("/APP", "/app");
    assert "/app/users"[4..] == "/users";
  }

  /** The documented example of a path outside the base "/app". */
  lemma IntendedOutsideExample()
    ensures TransformToRelativePathIntended("/app", "/other") == "~/other"
  {
    MismatchIsNotBaseIsPrefix("/app", "/other", 1);
  }

  // ---------------------------------------------------------------------------
  // removeLeadingQuestionMark and decodeEscapeSequences

  /** Prefixing one `?` and removing it again is the identity; a second `?` survives. */
  lemma RemoveLeadingQuestionMarkOnce(s: string)
    ensures RemoveLeadingQuestionMark("?" + s) == s
    ensures RemoveLeadingQuestionMark("??a") == "?a"
  {
    assert ("?" + s)[1..] == s;
  }

  /** The decoded result is the decoder's answer or, on failure, the input itself. */
  lemma DecodeNeverFails(decodeURI: string -> Option<string>, str: string)
    ensures var r := DecodeEscapeSequences(decodeURI, str);
      r == str || decodeURI(str) == Some(r)
    ensures decodeURI(str) == None ==> DecodeEscapeSequences(decodeURI, DecodeEscapeSequences(decodeURI, str)) == str
  {
  }
}
