/**
 * The few Python `str` operations the ARFF loader relies on, written out with
 * Python's semantics: `isspace`, `strip`/`rstrip`, `split(sep)`, `"".join(s.split())`,
 * `lower` (ASCII letters), slicing past the end, `str.index` and the `\w*` prefix
 * of a regular expression.
 */
module PyText {

  /**
   * Python's `str.isspace` for one character (also what `\s` matches in `re`):
   * tab to carriage return, the four separators U+001C to U+001F, space, and the
   * Unicode spaces and line and paragraph separators.
   */
  predicate IsSpace(c: char) {
    || ('\t' <= c <= '\r') || ('\U{1c}' <= c <= ' ')
    || c == '\U{85}' || c == '\U{a0}' || c == '\U{1680}' || ('\U{2000}' <= c <= '\U{200a}')
    || c == '\U{2028}' || c == '\U{2029}' || c == '\U{202f}' || c == '\U{205f}' || c == '\U{3000}'
  }

  /** What `\w` matches, restricted to ASCII: letters, digits and underscore. */
  predicate IsWordChar(c: char) {
    ('a' <= c <= 'z') || ('A' <= c <= 'Z') || ('0' <= c <= '9') || c == '_'
  }

  /** `s.rstrip()`: drop trailing whitespace. Its properties are `RStripSpec`. */
  function RStrip(s: string): string {
    if |s| > 0 && IsSpace(s[|s| - 1]) then RStrip(s[..|s| - 1]) else s
  }

  /** `s.lstrip()`: drop leading whitespace. Its properties are `LStripSpec`. */
  function LStrip(s: string): string {
    if |s| > 0 && IsSpace(s[0]) then LStrip(s[1..]) else s
  }

  /** `s.strip()`: whitespace removed at both ends. Its properties are `StripSpec`. */
  function Strip(s: string): string {
    LStrip(RStrip(s))
  }

  /** `rstrip` keeps a prefix, drops only whitespace, and leaves no whitespace at the end. */
  lemma {:induction false} RStripSpec(s: string)
    ensures RStrip(s) <= s
    ensures RStrip(s) == [] || !IsSpace(RStrip(s)[|RStrip(s)| - 1])
    ensures forall i :: |RStrip(s)| <= i < |s| ==> IsSpace(s[i])
    decreases |s|
  {
    if |s| > 0 && IsSpace(s[|s| - 1]) {
      RStripSpec(s[..|s| - 1]);
    }
  }

  /** `lstrip` keeps a suffix, drops only whitespace, and leaves no whitespace at the start. */
  lemma {:induction false} LStripSpec(s: string)
    ensures |LStrip(s)| <= |s| && LStrip(s) == s[|s| - |LStrip(s)|..]
    ensures LStrip(s) == [] || !IsSpace(LStrip(s)[0])
    ensures forall i :: 0 <= i < |s| - |LStrip(s)| ==> IsSpace(s[i])
    decreases |s|
  {
    if |s| > 0 && IsSpace(s[0]) {
      LStripSpec(s[1..]);
    }
  }

  /** How many leading characters `strip` removes from `s`. */
  function StripOffset(s: string): int {
    |RStrip(s)| - |Strip(s)|
  }

  /**
   * `strip` returns the piece of `s` starting at `StripOffset(s)`, with no
   * whitespace at either end, and what it drops on either side is whitespace.
   */
  lemma StripSpec(s: string)
    ensures var r := Strip(s); var k := StripOffset(s);
      && 0 <= k && k + |r| <= |s| && r == s[k..k + |r|]
      && (r == [] || (!IsSpace(r[0]) && !IsSpace(r[|r| - 1])))
      && (forall i :: 0 <= i < k ==> IsSpace(s[i]))
      && (forall i :: k + |r| <= i < |s| ==> IsSpace(s[i]))
  {
    var t := RStrip(s);
    RStripSpec(s);
    LStripSpec(t);
    var r := LStrip(t);
    if r != [] {
      assert r[|r| - 1] == t[|t| - 1];
    }
  }

  /** Stripping a string with no whitespace at either end gives it back. */
  lemma StripNoEdges(s: string)
    requires s == [] || (!IsSpace(s[0]) && !IsSpace(s[|s| - 1]))
    ensures Strip(s) == s
  {
  }

  /** `s[n:]` for a non-negative `n`: empty once `n` passes the end. */
  function Drop(s: string, n: nat): string
  {
    if n <= |s| then s[n..] else []
  }

  /** Cutting off a prefix's length gives back exactly the text after that prefix. */
  lemma DropAfterPrefix(p: string, s: string)
    ensures Drop(p + s, |p|) == s
  {
    assert (p + s)[|p|..] == s;
  }

  /** Dropping `m` then `n` characters is dropping `m + n`, and dropping never lengthens. */
  lemma DropDrop(s: string, m: nat, n: nat)
    ensures Drop(Drop(s, m), n) == Drop(s, m + n)
    ensures |Drop(s, m)| <= |s|
  {
    if m + n <= |s| {
      assert s[m..][n..] == s[m + n..];
    }
  }

  /** `s.index(c)`: the first position of `c`. */
  function IndexOf(s: string, c: char): (i: nat)
    requires c in s
    ensures i < |s| && s[i] == c && c !in s[..i]
  {
    if s[0] == c then 0 else 1 + IndexOf(s[1..], c)
  }

  /** Python's `sep.join(parts)`. */
  function Join(parts: seq<string>, sep: char): string
  {
    if |parts| == 0 then [] else if |parts| == 1 then parts[0] else parts[0] + [sep] + Join(parts[1..], sep)
  }

  /** `s.split(sep)` with a one-character separator: never empty, and joining gives `s` back. */
  function SplitOn(s: string, sep: char): (parts: seq<string>)
    ensures |parts| >= 1
    ensures forall k :: 0 <= k < |parts| ==> sep !in parts[k]
    ensures Join(parts, sep) == s
    decreases |s|
  {
    if sep !in s then [s]
    else
      var i := IndexOf(s, sep);
      var rest := SplitOn(s[i + 1..], sep);
      assert s == s[..i] + [sep] + s[i + 1..];
      [s[..i]] + rest
  }

  /** `"".join(s.split())`: every whitespace character removed. */
  function RemoveSpaces(s: string): (r: string)
    ensures |r| <= |s|
    ensures forall k :: 0 <= k < |r| ==> !IsSpace(r[k])
    ensures forall c :: c in r <==> c in s && !IsSpace(c)
  {
    if s == [] then []
    else if IsSpace(s[0]) then RemoveSpaces(s[1..])
    else [s[0]] + RemoveSpaces(s[1..])
  }

  /** Removing whitespace works piece by piece: it keeps the order of what remains. */
  lemma {:induction false} RemoveSpacesAppend(a: string, b: string)
    ensures RemoveSpaces(a + b) == RemoveSpaces(a) + RemoveSpaces(b)
  {
    if a == [] {
      assert a + b == b;
    } else {
      assert (a + b)[0] == a[0] && (a + b)[1..] == a[1..] + b;
      RemoveSpacesAppend(a[1..], b);
    }
  }

  /** Text without whitespace comes back unchanged, and only such text does. */
  lemma {:induction false} RemoveSpacesNoSpaces(s: string)
    ensures RemoveSpaces(s) == s <==> forall k :: 0 <= k < |s| ==> !IsSpace(s[k])
  {
    if s != [] {
      RemoveSpacesNoSpaces(s[1..]);
      if IsSpace(s[0]) {
        assert |RemoveSpaces(s)| <= |s[1..]| < |s|;
      }
    }
  }

  function LowerChar(c: char): char {
    if 'A' <= c <= 'Z' then (c as int - 'A' as int + 'a' as int) as char else c
  }

  /**
   * `s.lower()` on ASCII letters. The loader only compares the lowered text with
   * ASCII keywords. Outside ASCII, U+0130 lowers to `i` followed by a combining
   * dot, which no keyword contains, and the Kelvin sign U+212A lowers to `k`,
   * which no keyword contains either, so these comparisons come out as in Python.
   */
  function Lower(s: string): string
  {
    seq(|s|, k requires 0 <= k < |s| => LowerChar(s[k]))
  }

  /** Lowering twice is lowering once: lowered text has no upper-case ASCII letter left. */
  lemma LowerIdempotent(s: string)
    ensures Lower(Lower(s)) == Lower(s)
    ensures forall k :: 0 <= k < |s| ==> !('A' <= Lower(s)[k] <= 'Z')
  {
  }

  /** Lowering works character by character, so it distributes over concatenation and keeps the length. */
  lemma LowerAppend(a: string, b: string)
    ensures Lower(a + b) == Lower(a) + Lower(b)
    ensures |Lower(a)| == |a|
  {
  }

  /** `s.lower().startswith(keyword)` for a lower-case ASCII keyword. */
  predicate StartsWithIgnoringCase(s: string, keyword: string) {
    |keyword| <= |s| && Lower(s[..|keyword|]) == keyword
  }

  /** The text `\w*` matches at the start of `s`. */
  function WordPrefix(s: string): (r: string)
    ensures r <= s
    ensures forall k :: 0 <= k < |r| ==> IsWordChar(r[k])
    ensures |r| < |s| ==> !IsWordChar(s[|r|])
  {
    if |s| > 0 && IsWordChar(s[0]) then [s[0]] + WordPrefix(s[1..]) else []
  }

  /** On text without a newline, `\s*(.*)` followed by removing all whitespace is removing all whitespace. */
  lemma TypeTextWithoutNewline(x: string)
    requires '\n' !in x
    ensures RemoveSpaces(UpToNewline(SkipSpaces(x))) == RemoveSpaces(x)
  {
    var y := SkipSpaces(x);
    var lead := x[..|x| - |y|];
    SkippedSpaces(x);
    assert UpToNewline(y) == y;
    RemoveSpacesAfterSpaces(lead, y);
  }

  /** Whitespace in front of a text leaves nothing once whitespace is removed. */
  lemma RemoveSpacesAfterSpaces(lead: string, y: string)
    requires forall k :: 0 <= k < |lead| ==> IsSpace(lead[k])
    ensures RemoveSpaces(lead + y) == RemoveSpaces(y)
  {
    RemoveSpacesAppend(lead, y);
    RemoveSpacesOfSpaces(lead);
    assert [] + RemoveSpaces(y) == RemoveSpaces(y);
  }

  /** `SkipSpaces` splits its input into a whitespace prefix and the rest, and adds no newline. */
  lemma SkippedSpaces(x: string)
    ensures var y := SkipSpaces(x); var lead := x[..|x| - |y|];
      && x == lead + y
      && (forall k :: 0 <= k < |lead| ==> IsSpace(lead[k]))
      && ('\n' !in x ==> '\n' !in y)
  {
    SkippedSpacesLead(x);
    SkippedSpacesRest(x);
  }

  /** The part `SkipSpaces` drops is a whitespace prefix of its input. */
  lemma SkippedSpacesLead(x: string)
    ensures var y := SkipSpaces(x); var lead := x[..|x| - |y|];
      && x == lead + y
      && (forall k :: 0 <= k < |lead| ==> IsSpace(lead[k]))
  {
    var m := |x| - |SkipSpaces(x)|;
    assert x == x[..m] + x[m..];
  }

  /** `SkipSpaces` leaves no newline where there was none. */
  lemma SkippedSpacesRest(x: string)
    ensures '\n' !in x ==> '\n' !in SkipSpaces(x)
  {
    var y := SkipSpaces(x);
    if '\n' in y {
      var k :| 0 <= k < |y| && y[k] == '\n';
      assert x[|x| - |y| + k] == '\n';
    }
  }

  /** Whitespace alone leaves nothing behind. */
  lemma {:induction false} RemoveSpacesOfSpaces(s: string)
    requires forall k :: 0 <= k < |s| ==> IsSpace(s[k])
    ensures RemoveSpaces(s) == []
  {
    if s != [] {
      RemoveSpacesOfSpaces(s[1..]);
    }
  }

  /** `s` after the whitespace `\s*` matches at its start. */
  function SkipSpaces(s: string): (r: string)
    ensures |r| <= |s| && r == s[|s| - |r|..]
    ensures forall k :: 0 <= k < |s| - |r| ==> IsSpace(s[k])
    ensures r == [] || !IsSpace(r[0])
  {
    if |s| > 0 && IsSpace(s[0]) then SkipSpaces(s[1..]) else s
  }

  /** The text `.*` matches at the start of `s`: everything up to the first newline. */
  function UpToNewline(s: string): (r: string)
    ensures r <= s && '\n' !in r
    ensures |r| < |s| ==> s[|r|] == '\n'
  {
    if '\n' in s then s[..IndexOf(s, '\n')] else s
  }
}
