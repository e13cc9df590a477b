/** Character-level string helpers shared by the stores and the back end:
    the two `trim` operations (JavaScript's and Rust's whitespace sets differ),
    ASCII lower-casing, and a search for the first occurrence of a character. */
module Text {
  import opened Wrappers

  /** The characters JavaScript's `String.prototype.trim` removes:
      WhiteSpace and LineTerminator of ECMA-262. */
  predicate IsJsWhitespace(c: char) {
    c == '\t' || c == '\n' || c == '\U{000B}' || c == '\U{000C}' || c == '\r' || c == ' '
    || c == '\U{00A0}' || c == '\U{1680}' || ('\U{2000}' <= c <= '\U{200A}')
    || c == '\U{2028}' || c == '\U{2029}' || c == '\U{202F}' || c == '\U{205F}'
    || c == '\U{3000}' || c == '\U{FEFF}'
  }

  /** The characters Rust's `str::trim` removes: `char::is_whitespace`,
      the Unicode White_Space property. Unlike JavaScript it includes U+0085
      and excludes U+FEFF. */
  predicate IsRustWhitespace(c: char) {
    ('\t' <= c <= '\r') || c == ' ' || c == '\U{0085}' || c == '\U{00A0}' || c == '\U{1680}'
    || ('\U{2000}' <= c <= '\U{200A}') || c == '\U{2028}' || c == '\U{2029}'
    || c == '\U{202F}' || c == '\U{205F}' || c == '\U{3000}'
  }

  /** Drops the leading characters satisfying `ws`. */
  function TrimStart(s: string, ws: char -> bool): string {
    if |s| > 0 && ws(s[0]) then TrimStart(s[1..], ws) else s
  }

  /** Drops the trailing characters satisfying `ws`. */
  function TrimEnd(s: string, ws: char -> bool): string {
    if |s| > 0 && ws(s[|s| - 1]) then TrimEnd(s[..|s| - 1], ws) else s
  }

  /** Drops leading and trailing characters satisfying `ws`. */
  function Trim(s: string, ws: char -> bool): string {
    TrimEnd(TrimStart(s, ws), ws)
  }

  /** `TrimStart` keeps a suffix, cuts only whitespace, and stops at the first
      character that is not whitespace. */
  lemma {:induction false} TrimStartSuffix(s: string, ws: char -> bool)
    ensures var r := TrimStart(s, ws);
      && |r| <= |s| && r == s[|s| - |r|..]
      && (forall k :: 0 <= k < |s| - |r| ==> ws(s[k]))
      && (r == [] || !ws(r[0]))
  {
    if |s| > 0 && ws(s[0]) {
      TrimStartSuffix(s[1..], ws);
      var r := TrimStart(s, ws);
      assert s[1..][|s| - 1 - |r|..] == s[|s| - |r|..];
      forall k | 0 <= k < |s| - |r|
        ensures ws(s[k])
      {
        if k > 0 {
          assert s[k] == s[1..][k - 1];
        }
      }
    }
  }

  /** `TrimEnd` keeps a prefix, cuts only whitespace, and stops at the last
      character that is not whitespace. */
  lemma {:induction false} TrimEndPrefix(s: string, ws: char -> bool)
    ensures var r := TrimEnd(s, ws);
      && |r| <= |s| && r == s[..|r|]
      && (forall k :: |r| <= k < |s| ==> ws(s[k]))
      && (r == [] || !ws(r[|r| - 1]))
  {
    if |s| > 0 && ws(s[|s| - 1]) {
      TrimEndPrefix(s[..|s| - 1], ws);
      var r := TrimEnd(s, ws);
      assert s[..|s| - 1][..|r|] == s[..|r|];
      forall k | |r| <= k < |s|
        ensures ws(s[k])
      {
        if k < |s| - 1 {
          assert s[k] == s[..|s| - 1][k];
        }
      }
    }
  }

  /** The trimmed text neither starts nor ends with whitespace. */
  lemma TrimEdges(s: string, ws: char -> bool)
    ensures var t := Trim(s, ws); t == [] || (!ws(t[0]) && !ws(t[|t| - 1]))
  {
    var a := TrimStart(s, ws);
    var t := TrimEnd(a, ws);
    TrimStartSuffix(s, ws);
    TrimEndPrefix(a, ws);
    if t != [] {
      assert t[0] == a[0];
    }
  }

  /** Trimming leaves nothing exactly when every character is whitespace. */
  lemma TrimEmptyIff(s: string, ws: char -> bool)
    ensures Trim(s, ws) == [] <==> forall k :: 0 <= k < |s| ==> ws(s[k])
  {
    var a := TrimStart(s, ws);
    TrimStartSuffix(s, ws);
    TrimEndPrefix(a, ws);
    if a != [] {
      assert !ws(a[0]);
      assert s[|s| - |a|] == a[0];
    }
  }

  /** Trimming twice is the same as trimming once. */
  lemma TrimIdempotent(s: string, ws: char -> bool)
    ensures Trim(Trim(s, ws), ws) == Trim(s, ws)
  {
    var t := Trim(s, ws);
    TrimEdges(s, ws);
    if t != [] {
      assert TrimStart(t, ws) == t;
      assert TrimEnd(t, ws) == t;
    }
  }

  /** ASCII lower-casing of one character. */
  function LowerChar(c: char): (r: char)
    ensures 'A' <= c <= 'Z' ==> r as int == c as int + 32 && 'a' <= r <= 'z'
    ensures !('A' <= c <= 'Z') ==> r == c
  {
    if 'A' <= c <= 'Z' then (c as int + 32) as char else c
  }

  /** ASCII lower-casing of a string, character by character. */
  function Lower(s: string): (r: string)
    ensures |r| == |s|
    ensures forall k :: 0 <= k < |s| ==> r[k] == LowerChar(s[k])
  {
    seq(|s|, k requires 0 <= k < |s| => LowerChar(s[k]))
  }

  /** Rust's `str::find(c)`: the index of the first occurrence of `c`. */
  function Find(s: string, c: char): (r: Option<nat>)
    ensures r.None? <==> c !in s
    ensures r.Some? ==> r.value < |s| && s[r.value] == c
    ensures r.Some? ==> forall j :: 0 <= j < r.value ==> s[j] != c
  {
    if |s| == 0 then None
    else if s[0] == c then Some(0)
    else match Find(s[1..], c)
      case None => None
      case Some(k) => Some(k + 1)
  }
}
