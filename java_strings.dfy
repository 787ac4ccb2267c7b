/** The few `java.lang.String` and Spring `StringUtils` behaviours the core
    relies on: splitting on a one-character separator, `hasText`, and
    `length()` counted in UTF-16 code units. */
module JavaStrings {
  import opened Wrappers

  /** The text between consecutive occurrences of `sep`, empty fields
      included (what `split` produces before it drops trailing empties). */
  function Fields(s: string, sep: char): (r: seq<string>)
    ensures |r| >= 1
    ensures forall i :: 0 <= i < |r| ==> sep !in r[i]
    ensures Join(r, sep) == s
    decreases |s|
  {
    if s == [] then [""]
    else
      var rest := Fields(s[1..], sep);
      if s[0] == sep then
        assert Join([""] + rest, sep) == [sep] + Join(rest, sep) by {
          assert ([""] + rest)[1..] == rest;
        }
        [""] + rest
      else
        var head := [s[0]] + rest[0];
        assert Join([head] + rest[1..], sep) == [s[0]] + Join(rest, sep) by {
          assert ([head] + rest[1..])[1..] == rest[1..];
        }
        [head] + rest[1..]
  }

  /** The inverse of `Fields`: the parts with `sep` between each two. */
  function Join(parts: seq<string>, sep: char): string
  {
    if |parts| == 0 then ""
    else if |parts| == 1 then parts[0]
    else parts[0] + [sep] + Join(parts[1..], sep)
  }

  /** Trailing empty strings removed, as `String.split` does with limit 0. */
  function StripTrailingEmpty(fs: seq<string>): (r: seq<string>)
    ensures r <= fs
    ensures r == [] || r[|r| - 1] != ""
    ensures forall i :: |r| <= i < |fs| ==> fs[i] == ""
  {
    if fs == [] || fs[|fs| - 1] != "" then fs
    else StripTrailingEmpty(fs[..|fs| - 1])
  }

  /** `s.split(sep)` for a separator that is no regular-expression
      metacharacter: the input itself when it holds no separator, otherwise
      its fields less the trailing empty ones. */
  function Split(s: string, sep: char): (r: seq<string>)
    ensures sep !in s ==> r == [s]
    ensures forall i :: 0 <= i < |r| ==> sep !in r[i]
  {
    if sep !in s then [s] else StripTrailingEmpty(Fields(s, sep))
  }

  lemma {:induction false} FieldsWithoutSeparator(s: string, sep: char)
    requires sep !in s
    ensures Fields(s, sep) == [s]
    decreases |s|
  {
    if s != [] {
      FieldsWithoutSeparator(s[1..], sep);
      assert [s[0]] + s[1..] == s;
    }
  }

  lemma {:induction false} FieldsAfterFirst(a: string, b: string, sep: char)
    requires sep !in a
    ensures Fields(a + [sep] + b, sep) == [a] + Fields(b, sep)
    decreases |a|
  {
    var s := a + [sep] + b;
    if a == [] {
      assert s[0] == sep && s[1..] == b;
    } else {
      assert s[0] == a[0] && s[1..] == a[1..] + [sep] + b;
      FieldsAfterFirst(a[1..], b, sep);
      assert [a[0]] + a[1..] == a;
    }
  }

  /** Splitting what `Join` built gives back the parts, provided none of them
      holds the separator. */
  lemma {:induction false} FieldsOfJoin(parts: seq<string>, sep: char)
    requires |parts| >= 1
    requires forall i :: 0 <= i < |parts| ==> sep !in parts[i]
    ensures Fields(Join(parts, sep), sep) == parts
    decreases |parts|
  {
    if |parts| == 1 {
      FieldsWithoutSeparator(parts[0], sep);
    } else {
      FieldsAfterFirst(parts[0], Join(parts[1..], sep), sep);
      FieldsOfJoin(parts[1..], sep);
      assert [parts[0]] + parts[1..] == parts;
    }
  }

  /** For text of the form `a,b,...` with a non-empty second field, `split`
      yields `a` and `b` as its first two elements. */
  lemma SplitLeadingFields(a: string, b: string, rest: seq<string>, sep: char)
    requires sep !in a && sep !in b && b != ""
    requires forall i :: 0 <= i < |rest| ==> sep !in rest[i]
    ensures |Split(Join([a, b] + rest, sep), sep)| >= 2
    ensures Split(Join([a, b] + rest, sep), sep)[0] == a
    ensures Split(Join([a, b] + rest, sep), sep)[1] == b
  {
    var parts := [a, b] + rest;
    var s := Join(parts, sep);
    assert s == a + [sep] + Join(parts[1..], sep);
    assert s[|a|] == sep;
    FieldsOfJoin(parts, sep);
    var r := StripTrailingEmpty(parts);
    assert Split(s, sep) == r;
    assert parts[1] == b;
  }

  /** `Character.isWhitespace`: the Unicode space, line and paragraph
      separators other than the no-break spaces U+00A0, U+2007 and U+202F,
      and the controls U+0009 to U+000D and U+001C to U+001F. */
  predicate IsWhitespace(c: char)
  {
    || c == ' '
    || ('\t' <= c <= '\r')
    || ('\U{1C}' <= c <= '\U{1F}')
    || c == '\U{1680}'
    || ('\U{2000}' <= c <= '\U{2006}')
    || ('\U{2008}' <= c <= '\U{200A}')
    || c == '\U{2028}' || c == '\U{2029}'
    || c == '\U{205F}' || c == '\U{3000}'
  }

  function ContainsText(s: string): (r: bool)
    ensures r <==> exists i :: 0 <= i < |s| && !IsWhitespace(s[i])
  {
    if s == [] then false
    else if !IsWhitespace(s[0]) then true
    else
      assert forall i :: 1 <= i < |s| ==> s[i] == s[1..][i - 1];
      ContainsText(s[1..])
  }

  /** Spring's `StringUtils.hasText`: not null and not blank. */
  function HasText(s: Option<string>): (r: bool)
    ensures r <==> s.Some? && exists i :: 0 <= i < |s.value| && !IsWhitespace(s.value[i])
  {
    s.Some? && ContainsText(s.value)
  }

  /** `String.valueOf` as string concatenation applies it: null reads "null". */
  function ValueOf(s: Option<string>): (r: string)
    ensures s.Some? ==> r == s.value
    ensures s.None? ==> r == "null"
  {
    match s
    case Some(v) => v
    case None => "null"
  }

  /** `String.length()`: one UTF-16 code unit for a character of the Basic
      Multilingual Plane, two (a surrogate pair) for any other. */
  function Utf16Length(s: string): (n: nat)
    ensures |s| <= n <= 2 * |s|
    ensures n == |s| <==> forall i :: 0 <= i < |s| ==> (s[i] as int) < 0x1_0000
  {
    if s == [] then 0
    else
      assert forall i :: 1 <= i < |s| ==> s[i] == s[1..][i - 1];
      (if (s[0] as int) < 0x1_0000 then 1 else 2) + Utf16Length(s[1..])
  }
}
