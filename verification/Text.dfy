/** The string handling of the profile files: Python's `str.split(sep)` with an
    explicit one-character separator, the matching `sep.join`, and `str.strip()`. */
module Text {

  /** The field separator of the profile files. */
  const Comma: char := ','

  /** Python's `str.isspace` for one character. */
  predicate IsSpace(ch: char)
  {
    || ('\U{9}' <= ch <= '\U{D}')
    || ('\U{1C}' <= ch <= '\U{20}')
    || ch == '\U{85}' || ch == '\U{A0}' || ch == '\U{1680}'
    || ('\U{2000}' <= ch <= '\U{200A}')
    || ch == '\U{2028}' || ch == '\U{2029}' || ch == '\U{202F}' || ch == '\U{205F}' || ch == '\U{3000}'
  }

  /** `sep.join(parts)`: the parts with one separator between neighbours. */
  function Join(parts: seq<string>, sep: char): string
    requires |parts| >= 1
    decreases |parts|
  {
    if |parts| == 1 then parts[0] else parts[0] + [sep] + Join(parts[1..], sep)
  }

  /** `s.split(sep)`: the maximal separator-free pieces, in order; joining
      them back with the separator gives `s` again. */
  function Split(s: string, sep: char): (parts: seq<string>)
    ensures |parts| >= 1
    ensures forall k :: 0 <= k < |parts| ==> sep !in parts[k]
    ensures Join(parts, sep) == s
    decreases |s|
  {
    if |s| == 0 then [""]
    else
      var rest := Split(s[1..], sep);
      if s[0] == sep then
        assert ([""] + rest)[1..] == rest;
        [""] + rest
      else
        var parts := [[s[0]] + rest[0]] + rest[1..];
        assert parts[1..] == rest[1..];
        parts
  }

  lemma {:induction false} SplitPrefix(p: string, t: string, sep: char)
    requires sep !in p
    ensures Split(p + t, sep) == [p + Split(t, sep)[0]] + Split(t, sep)[1..]
    decreases |p|
  {
    if |p| == 0 {
      var parts := Split(t, sep);
      assert p + t == t;
      assert p + parts[0] == parts[0];
      assert [parts[0]] + parts[1..] == parts;
    } else {
      assert (p + t)[1..] == p[1..] + t;
      SplitPrefix(p[1..], t, sep);
      assert [p[0]] + (p[1..] + Split(t, sep)[0]) == p + Split(t, sep)[0];
    }
  }

  /** Splitting a joined row gives back its fields, provided no field holds
      the separator. */
  lemma {:induction false} SplitJoin(parts: seq<string>, sep: char)
    requires |parts| >= 1
    requires forall k :: 0 <= k < |parts| ==> sep !in parts[k]
    ensures Split(Join(parts, sep), sep) == parts
    decreases |parts|
  {
    if |parts| == 1 {
      SplitPrefix(parts[0], "", sep);
      assert parts[0] + "" == parts[0];
    } else {
      var t := [sep] + Join(parts[1..], sep);
      assert Join(parts, sep) == parts[0] + t;
      SplitPrefix(parts[0], t, sep);
      SplitJoin(parts[1..], sep);
      assert t[1..] == Join(parts[1..], sep);
      assert Split(t, sep) == [""] + parts[1..];
      assert parts[0] + "" == parts[0];
      assert [parts[0]] + parts[1..] == parts;
    }
  }

  /** Number of leading whitespace characters. */
  function LeadingSpace(s: string): (n: nat)
    ensures n <= |s|
    ensures forall k :: 0 <= k < n ==> IsSpace(s[k])
    ensures n < |s| ==> !IsSpace(s[n])
    decreases |s|
  {
    if |s| > 0 && IsSpace(s[0]) then 1 + LeadingSpace(s[1..]) else 0
  }

  /** Start of the run of whitespace that ends `s`, never before `lo`. */
  function TrailingSpace(s: string, lo: nat): (m: nat)
    requires lo <= |s|
    ensures lo <= m <= |s|
    ensures forall k :: m <= k < |s| ==> IsSpace(s[k])
    ensures lo < m ==> !IsSpace(s[m - 1])
    decreases |s|
  {
    if lo < |s| && IsSpace(s[|s| - 1]) then TrailingSpace(s[..|s| - 1], lo) else |s|
  }

  /** `s.strip()`: the slice of `s` left after dropping whitespace at both ends. */
  function Strip(s: string): (r: string)
  {
    var a := LeadingSpace(s);
    s[a..TrailingSpace(s, a)]
  }

  /** What `Strip` keeps is a slice of the input with only whitespace cut off,
      and it neither begins nor ends with whitespace. */
  lemma StripIsTrim(s: string)
    ensures exists a, b ::
      && 0 <= a <= b <= |s| && Strip(s) == s[a..b]
      && (forall k :: 0 <= k < a ==> IsSpace(s[k]))
      && (forall k :: b <= k < |s| ==> IsSpace(s[k]))
    ensures |Strip(s)| > 0 ==> !IsSpace(Strip(s)[0]) && !IsSpace(Strip(s)[|Strip(s)| - 1])
  {
    var a := LeadingSpace(s);
    var b := TrailingSpace(s, a);
    assert Strip(s) == s[a..b];
  }

  /** Stripping twice is stripping once. */
  lemma StripIdempotent(s: string)
    ensures Strip(Strip(s)) == Strip(s)
  {
    var r := Strip(s);
    StripIsTrim(s);
    if |r| > 0 {
      assert LeadingSpace(r) == 0;
      assert TrailingSpace(r, 0) == |r|;
      assert r[0..|r|] == r;
    }
  }
}
