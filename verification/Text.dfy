// String operations of the Go standard library that the modelled code leans on.
// A `char` stands for one rune. White space is Unicode's, as unicode.IsSpace has it; letter case is
// that of the ASCII letters.
module Text {
  import opened Wrappers

  /** unicode.IsSpace */
  predicate IsSpace(c: char) {
    c == ' ' || '\t' <= c <= '\r' || IsWideSpace(c)
  }

  /** The white space outside ASCII. */
  predicate IsWideSpace(c: char) {
    c == '\U{85}' || c == '\U{A0}' || c == '\U{1680}' || '\U{2000}' <= c <= '\U{200A}' ||
    c == '\U{2028}' || c == '\U{2029}' || c == '\U{202F}' || c == '\U{205F}' || c == '\U{3000}'
  }

  /** strings.TrimSpace */
  function Trim(s: string): (r: string)
    ensures |r| <= |s|
    ensures r != "" ==> !IsSpace(r[0]) && !IsSpace(r[|r| - 1])
  {
    if s == "" then s
    else if IsSpace(s[0]) then Trim(s[1..])
    else if IsSpace(s[|s| - 1]) then Trim(s[..|s| - 1])
    else s
  }

  lemma AlreadyTrimmed(s: string)
    requires s == "" || (!IsSpace(s[0]) && !IsSpace(s[|s| - 1]))
    ensures Trim(s) == s
  {
  }

  lemma TrimTwice(s: string)
    ensures Trim(Trim(s)) == Trim(s)
  {
    AlreadyTrimmed(Trim(s));
  }

  predicate Blank(s: string) {
    Trim(s) == ""
  }

  predicate HasPrefix(s: string, prefix: string) {
    prefix <= s
  }

  /** No white space anywhere: what strings.Fields keeps as one token. */
  predicate IsToken(s: string) {
    forall i :: 0 <= i < |s| ==> !IsSpace(s[i])
  }

  lemma TokenIsTrimmed(s: string)
    requires IsToken(s)
    ensures Trim(s) == s
  {
  }

  lemma {:induction false} TrimKeepsHead(s: string)
    requires s != "" && !IsSpace(s[0])
    ensures Trim(s) <= s && Trim(s) != ""
    ensures IsSpace(s[|s| - 1]) ==> |Trim(s)| < |s|
  {
    if IsSpace(s[|s| - 1]) {
      TrimKeepsHead(s[..|s| - 1]);
    }
  }

  function Upper(c: char): char {
    if 'a' <= c <= 'z' then (c as int - 32) as char else c
  }

  function Lower(c: char): char {
    if 'A' <= c <= 'Z' then (c as int + 32) as char else c
  }

  /** strings.ToUpper */
  function ToUpper(s: string): string {
    seq(|s|, i requires 0 <= i < |s| => Upper(s[i]))
  }

  /** strings.ToLower */
  function ToLower(s: string): string {
    seq(|s|, i requires 0 <= i < |s| => Lower(s[i]))
  }

  lemma LowerOfTrimmed(s: string)
    ensures Trim(ToLower(Trim(s))) == ToLower(Trim(s))
    ensures ToLower(ToLower(Trim(s))) == ToLower(Trim(s))
  {
    var t := Trim(s);
    assert t != "" ==> IsSpace(Lower(t[0])) == IsSpace(t[0]) && IsSpace(Lower(t[|t| - 1])) == IsSpace(t[|t| - 1]);
  }

  /** strings.Split for a one-byte separator. */
  function Split(s: string, sep: char): (r: seq<string>)
    ensures |r| > 0
  {
    if s == "" then [""]
    else if s[0] == sep then [""] + Split(s[1..], sep)
    else
      var rest := Split(s[1..], sep);
      [[s[0]] + rest[0]] + rest[1..]
  }

  /** strings.Join for a one-byte separator. */
  function Join(parts: seq<string>, sep: char): string {
    if parts == [] then ""
    else if |parts| == 1 then parts[0]
    else parts[0] + [sep] + Join(parts[1..], sep)
  }

  lemma SplitWithout(s: string, sep: char)
    requires sep !in s
    ensures Split(s, sep) == [s]
  {
    if s != "" {
      SplitWithout(s[1..], sep);
      assert [s[0]] + s[1..] == s;
    }
  }

  /** The pieces of a text, given those of all but its first character. */
  function Grown(c: char, sep: char, ps: seq<string>): seq<string>
    requires ps != []
  {
    if c == sep then [""] + ps else [[c] + ps[0]] + ps[1..]
  }

  lemma SplitHead(c: char, s: string, sep: char)
    ensures Split([c] + s, sep) == Grown(c, sep, Split(s, sep))
  {
    assert ([c] + s)[1..] == s;
  }

  lemma GrownConcat(c: char, sep: char, ps: seq<string>, more: seq<string>)
    requires ps != []
    ensures Grown(c, sep, ps + more) == Grown(c, sep, ps) + more
  {
  }

  lemma {:induction false} SplitBefore(a: string, sep: char, rest: string)
    requires rest != "" && rest[0] == sep
    ensures Split(a + rest, sep) == Split(a, sep) + Split(rest[1..], sep)
  {
    if a == "" {
      assert a + rest == rest;
    } else {
      var tail, more := a[1..], Split(rest[1..], sep);
      SplitBefore(tail, sep, rest);
      assert a + rest == [a[0]] + (tail + rest) && a == [a[0]] + tail;
      SplitHead(a[0], tail + rest, sep);
      SplitHead(a[0], tail, sep);
      GrownConcat(a[0], sep, Split(tail, sep), more);
    }
  }

  /** A separator between two texts separates their pieces. */
  lemma SplitConcat(a: string, sep: char, b: string)
    ensures Split(a + [sep] + b, sep) == Split(a, sep) + Split(b, sep)
  {
    var rest := [sep] + b;
    SplitBefore(a, sep, rest);
    assert rest[1..] == b && a + [sep] + b == a + rest;
  }

  lemma {:induction false} JoinSplit(s: string, sep: char)
    ensures Join(Split(s, sep), sep) == s
  {
    if s != "" {
      JoinSplit(s[1..], sep);
      assert s == [s[0]] + s[1..];
      var rest := Split(s[1..], sep);
      if s[0] != sep && |rest| > 1 {
        assert Join([[s[0]] + rest[0]] + rest[1..], sep) == [s[0]] + rest[0] + [sep] + Join(rest[1..], sep);
      }
    }
  }

  /** The pieces of `a` begin the pieces of `s` only if `s` is `a`, or `a` and a separator begin it. */
  lemma {:induction false} SplitPrefix(a: string, s: string, sep: char)
    requires Split(a, sep) <= Split(s, sep)
    ensures s == a || a + [sep] <= s
  {
    assert Split(s, sep)[0] == Split(a, sep)[0];
    if a != "" && s != "" {
      assert a == [a[0]] + a[1..] && s == [s[0]] + s[1..];
      if a[0] == sep {
        assert Split(a, sep)[1..] <= Split(s, sep)[1..];
      } else {
        var x, y := Split(a[1..], sep), Split(s[1..], sep);
        assert Split(a, sep)[1..] == x[1..] && Split(s, sep)[1..] == y[1..];
        assert Split(a, sep)[0][1..] == x[0] && Split(s, sep)[0][1..] == y[0];
        assert x == [x[0]] + x[1..] && y == [y[0]] + y[1..];
      }
      SplitPrefix(a[1..], s[1..], sep);
    }
  }

  lemma {:induction false} SplitJoin(parts: seq<string>, sep: char)
    requires parts != []
    requires forall p :: p in parts ==> sep !in p
    ensures Split(Join(parts, sep), sep) == parts
  {
    if |parts| == 1 {
      SplitWithout(parts[0], sep);
    } else {
      var first, rest := parts[0], Join(parts[1..], sep);
      SplitJoin(parts[1..], sep);
      SplitWithout(first, sep);
      SplitConcat(first, sep, rest);
      assert parts == [first] + parts[1..];
    }
  }

  /** Decimal digits, as %d prints them. */
  function Itoa(n: nat): (s: string)
    ensures s != "" && forall i :: 0 <= i < |s| ==> '0' <= s[i] <= '9'
  {
    if n < 10 then [(n + 48) as char] else Itoa(n / 10) + [(n % 10 + 48) as char]
  }

  function Number(s: string): Option<nat> {
    if s == "" || !('0' <= s[|s| - 1] <= '9') then None
    else
      var d := s[|s| - 1] as int - 48;
      if |s| == 1 then Some(d)
      else
        var high := Number(s[..|s| - 1]);
        if high.Some? then Some(10 * high.value + d) else None
  }

  lemma {:induction false} NumberOfItoa(n: nat)
    ensures Number(Itoa(n)) == Some(n)
  {
    if n >= 10 {
      NumberOfItoa(n / 10);
      assert Itoa(n)[..|Itoa(n)| - 1] == Itoa(n / 10);
    }
  }

  /** Go's `<` on strings: lexicographic, the same on bytes as on runes. */
  predicate Less(a: string, b: string) {
    b != "" && (a == "" || a[0] < b[0] || (a[0] == b[0] && Less(a[1..], b[1..])))
  }

  lemma {:induction false} LessTotal(a: string, b: string)
    ensures a == b || Less(a, b) || Less(b, a)
    ensures !(Less(a, b) && Less(b, a))
    ensures !Less(a, a)
  {
    if a != "" && b != "" {
      LessTotal(a[1..], b[1..]);
      if a[0] == b[0] {
        assert a == [a[0]] + a[1..];
        assert b == [b[0]] + b[1..];
      }
    }
    if a != "" {
      LessTotal(a[1..], a[1..]);
    }
  }

  lemma {:induction false} LessTransitive(a: string, b: string, c: string)
    requires Less(a, b) && Less(b, c)
    ensures Less(a, c)
  {
    if a != "" && a[0] == b[0] && b[0] == c[0] {
      LessTransitive(a[1..], b[1..], c[1..]);
    }
  }
}
