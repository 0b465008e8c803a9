/** Character classes and string helpers shared by the markup and stylesheet grammars. */
module Chars {

  /** `letter()` of the parser library; restricted to ASCII letters in this model. */
  predicate IsLetter(c: char) {
    ('a' <= c <= 'z') || ('A' <= c <= 'Z')
  }

  /** `digit()` of the parser library: a decimal digit. */
  predicate IsDigit(c: char) {
    '0' <= c <= '9'
  }

  /** `space()` of the parser library, i.e. `char::is_whitespace`: the Unicode White_Space property. */
  predicate IsSpace(c: char) {
    ('\t' <= c <= '\r') || c == ' ' || c == '\U{85}' || c == '\U{A0}' || c == '\U{1680}'
    || ('\U{2000}' <= c <= '\U{200A}') || c == '\U{2028}' || c == '\U{2029}' || c == '\U{202F}'
    || c == '\U{205F}' || c == '\U{3000}'
  }

  /** The separators of `split_ascii_whitespace`: space, tab, line feed, form feed, carriage return. */
  predicate IsAsciiWhitespace(c: char) {
    c == ' ' || c == '\t' || c == '\n' || c == '\U{C}' || c == '\r'
  }

  predicate AllLetters(s: string) {
    forall i :: 0 <= i < |s| ==> IsLetter(s[i])
  }

  predicate AllDigits(s: string) {
    forall i :: 0 <= i < |s| ==> IsDigit(s[i])
  }

  predicate AllSpaces(s: string) {
    forall i :: 0 <= i < |s| ==> IsSpace(s[i])
  }

  /** The character classes the grammars repeat over. */
  datatype CharClass = Letters | Digits | Spaces | NonAsciiWhitespace | AllBut(excluded: char)

  predicate InClass(c: char, k: CharClass) {
    match k
    case Letters => IsLetter(c)
    case Digits => IsDigit(c)
    case Spaces => IsSpace(c)
    case NonAsciiWhitespace => !IsAsciiWhitespace(c)
    case AllBut(x) => c != x
  }

  /** Length of the longest prefix of `s` whose characters all belong to `k`. */
  function Span(s: string, k: CharClass): (n: nat)
    ensures n <= |s|
    ensures forall i :: 0 <= i < n ==> InClass(s[i], k)
    ensures n < |s| ==> !InClass(s[n], k)
  {
    if s == [] || !InClass(s[0], k) then 0 else 1 + Span(s[1..], k)
  }

  /** A span is determined by a prefix in the class followed by a character outside it. */
  lemma {:induction false} SpanOf(x: string, t: string, k: CharClass)
    requires forall i :: 0 <= i < |x| ==> InClass(x[i], k)
    requires t == [] || !InClass(t[0], k)
    ensures Span(x + t, k) == |x|
  {
    if x != [] {
      assert (x + t)[1..] == x[1..] + t;
      SpanOf(x[1..], t, k);
    }
  }

  /**
   * The input with its leading white space removed: `many(space())` in the
   * markup grammar, `.skip(whitespaces())` in the stylesheet grammar.
   */
  function SkipSpaces(s: string): (r: string)
    ensures |r| <= |s| && (r == [] || !IsSpace(r[0]))
  {
    if s != [] && IsSpace(s[0]) then SkipSpaces(s[1..]) else s
  }

  /** What `SkipSpaces` removes is white space, and it removes it from the front. */
  lemma {:induction false} SkipSpacesSplit(s: string)
    ensures var n := |s| - |SkipSpaces(s)|; s == s[..n] + SkipSpaces(s) && AllSpaces(s[..n])
  {
    if s != [] && IsSpace(s[0]) {
      SkipSpacesSplit(s[1..]);
      var n := |s| - |SkipSpaces(s)|;
      assert s[1..][..n - 1] == s[1..n];
      assert s[..n] == [s[0]] + s[1..n];
    }
  }

  /** White space followed by anything else is skipped exactly. */
  lemma {:induction false} SkipSpacesOf(w: string, t: string)
    requires AllSpaces(w) && (t == [] || !IsSpace(t[0]))
    ensures SkipSpaces(w + t) == t
  {
    if w != [] {
      assert (w + t)[0] == w[0] && (w + t)[1..] == w[1..] + t;
      SkipSpacesOf(w[1..], t);
    } else {
      assert w + t == t;
    }
  }

  lemma SkipSpacesNone(t: string)
    requires t == [] || !IsSpace(t[0])
    ensures SkipSpaces(t) == t
  {
  }

  lemma SkipSpacesIdempotent(s: string)
    ensures SkipSpaces(SkipSpaces(s)) == SkipSpaces(s)
  {
    SkipSpacesNone(SkipSpaces(s));
  }

  /** Leading white space adds nothing once skipped. */
  lemma {:induction false} SkipSpacesPrefix(w: string, t: string)
    requires AllSpaces(w)
    ensures SkipSpaces(w + t) == SkipSpaces(t)
  {
    if w != [] {
      assert (w + t)[0] == w[0] && (w + t)[1..] == w[1..] + t;
      SkipSpacesPrefix(w[1..], t);
    } else {
      assert w + t == t;
    }
  }

  /** Decimal value of a run of digits, as `str::parse::<usize>` reads it (unbounded here). */
  function DecimalValue(s: string): (n: nat)
    requires AllDigits(s)
    ensures |s| == 0 ==> n == 0
  {
    if s == [] then 0 else DecimalValue(s[..|s| - 1]) * 10 + (s[|s| - 1] as int - '0' as int)
  }

  /** `parts.join("")`. */
  function Concat(parts: seq<string>): (r: string)
    ensures |parts| == 1 ==> r == parts[0]
  {
    if parts == [] then "" else parts[0] + Concat(parts[1..])
  }

  /** `parts.join(sep)`. */
  function Join(parts: seq<string>, sep: string): (r: string)
  {
    if parts == [] then "" else if |parts| == 1 then parts[0] else parts[0] + sep + Join(parts[1..], sep)
  }

  predicate StartsWith(s: string, prefix: string) {
    |prefix| <= |s| && s[..|prefix|] == prefix
  }

  lemma {:induction false} ConcatAppend(a: seq<string>, b: seq<string>)
    ensures Concat(a + b) == Concat(a) + Concat(b)
  {
    if a != [] {
      assert (a + b)[1..] == a[1..] + b;
      ConcatAppend(a[1..], b);
    } else {
      assert a + b == b;
    }
  }

  /** Regrouping a concatenation of three sequences. */
  lemma Assoc<T>(x: seq<T>, y: seq<T>, z: seq<T>)
    ensures (x + y) + z == x + (y + z)
  {
  }

  /** Regrouping a concatenation of four sequences. */
  lemma Assoc3<T>(a: seq<T>, b: seq<T>, c: seq<T>, d: seq<T>)
    ensures a + b + c + d == a + (b + c + d)
  {
  }

  /** Both halves of a concatenation are recovered by slicing at the seam. */
  lemma SplitAt<T>(x: seq<T>, y: seq<T>)
    ensures (x + y)[..|x|] == x && (x + y)[|x|..] == y
  {
  }

  /** Moving the first element of `es` onto the end of `acc` keeps `acc + es`. */
  lemma AppendFirst<T>(acc: seq<T>, es: seq<T>)
    requires es != []
    ensures acc + [es[0]] + es[1..] == acc + es
  {
  }
}
