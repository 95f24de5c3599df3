/**
 Go's string helpers, as far as gtctl uses them: `strings.Split` and `strings.Join` with a
 one-character separator, `strings.Trim(s, " ")`, and the decimal conversions of `strconv`.
 Strings are sequences of characters; no step here depends on an encoding.
 */
module Text {

  datatype Option<+T> = None | Some(value: T)

  datatype Result<+T> = Ok(value: T) | Err(error: string)

  /** Position of the first `c` in `s`. */
  function IndexOf(s: string, c: char): (i: nat)
    requires c in s
    ensures i < |s| && s[i] == c && c !in s[..i]
  {
    if s[0] == c then 0 else 1 + IndexOf(s[1..], c)
  }

  /** Position of the last `c` in `s`. */
  function LastIndexOf(s: string, c: char): (i: nat)
    requires c in s
    ensures i < |s| && s[i] == c && c !in s[i + 1..]
  {
    if s[|s| - 1] == c then |s| - 1 else LastIndexOf(s[..|s| - 1], c)
  }

  predicate EndsWith(s: string, suffix: string) {
    |suffix| <= |s| && s[|s| - |suffix|..] == suffix
  }

  /** The position of `c` in `a + [c] + b` when `a` has none. */
  lemma {:induction false} IndexOfAt(a: string, c: char, b: string)
    requires c !in a
    ensures IndexOf(a + [c] + b, c) == |a|
  {
    if a != "" {
      assert (a + [c] + b)[1..] == a[1..] + [c] + b;
      IndexOfAt(a[1..], c, b);
    }
  }

  lemma {:induction false} LastIndexOfAt(a: string, c: char, b: string)
    requires c !in b
    ensures LastIndexOf(a + [c] + b, c) == |a|
  {
    if b != "" {
      var n := |b| - 1;
      assert (a + [c] + b)[..|a| + 1 + n] == a + [c] + b[..n];
      LastIndexOfAt(a, c, b[..n]);
    }
  }

  // ---- Split and Join ----

  function Split(s: string, sep: char): (parts: seq<string>)
    ensures |parts| >= 1
    ensures forall p | p in parts :: sep !in p
    decreases |s|
  {
    if sep !in s then [s]
    else
      var i := IndexOf(s, sep);
      [s[..i]] + Split(s[i + 1..], sep)
  }

  function Join(parts: seq<string>, sep: char): string {
    if parts == [] then ""
    else if |parts| == 1 then parts[0]
    else parts[0] + [sep] + Join(parts[1..], sep)
  }

  lemma {:induction false} SplitAt(a: string, b: string, sep: char)
    requires sep !in a
    ensures Split(a + [sep] + b, sep) == [a] + Split(b, sep)
  {
    IndexOfAt(a, sep, b);
    var s := a + [sep] + b;
    assert s[|a|] == sep;
    assert s[..|a|] == a && s[|a| + 1..] == b;
  }

  lemma Regroup<T>(a: seq<T>, b: seq<T>, c: seq<T>)
    ensures (a + b) + c == a + (b + c)
  {
  }

  /** A string with a separator, cut at the first one. */
  lemma SplitFirst(s: string, sep: char) returns (first: string, rest: string)
    requires sep in s
    ensures s == first + [sep] + rest && |rest| < |s|
    ensures Split(s, sep) == [first] + Split(rest, sep)
    ensures forall b: string :: Split(s + b, sep) == [first] + Split(rest + b, sep)
  {
    var i := IndexOf(s, sep);
    first, rest := s[..i], s[i + 1..];
    assert s == first + [sep] + rest;
    forall b: string ensures Split(s + b, sep) == [first] + Split(rest + b, sep) {
      Regroup(first + [sep], rest, b);
      SplitAt(first, rest + b, sep);
    }
  }

  /** Splitting a concatenation at a separator splits each side. */
  lemma {:induction false} SplitConcat(a: string, b: string, sep: char)
    ensures Split(a + [sep] + b, sep) == Split(a, sep) + Split(b, sep)
    decreases |a|
  {
    if sep !in a {
      SplitAt(a, b, sep);
    } else {
      hide *;
      var first, rest := SplitFirst(a, sep);
      Regroup(a, [sep], b);
      Regroup(rest, [sep], b);
      SplitConcat(rest, b, sep);
      Regroup([first], Split(rest, sep), Split(b, sep));
    }
  }

  lemma JoinCons(first: string, rest: seq<string>, sep: char)
    requires rest != []
    ensures Join([first] + rest, sep) == first + [sep] + Join(rest, sep)
  {
    assert ([first] + rest)[1..] == rest;
  }

  lemma {:induction false} JoinSplit(s: string, sep: char)
    ensures Join(Split(s, sep), sep) == s
    decreases |s|
  {
    if sep in s {
      var i := IndexOf(s, sep);
      JoinSplit(s[i + 1..], sep);
      JoinCons(s[..i], Split(s[i + 1..], sep), sep);
      assert s == s[..i] + [sep] + s[i + 1..];
    }
  }

  lemma {:induction false} SplitJoin(parts: seq<string>, sep: char)
    requires parts != [] && forall p | p in parts :: sep !in p
    ensures Split(Join(parts, sep), sep) == parts
  {
    if |parts| > 1 {
      SplitJoin(parts[1..], sep);
      SplitAt(parts[0], Join(parts[1..], sep), sep);
    }
  }

  /** Joining is injective on non-empty lists of separator-free parts. */
  lemma JoinInjective(xs: seq<string>, ys: seq<string>, sep: char)
    requires xs != [] && ys != []
    requires forall p | p in xs :: sep !in p
    requires forall p | p in ys :: sep !in p
    requires Join(xs, sep) == Join(ys, sep)
    ensures xs == ys
  {
    SplitJoin(xs, sep);
    SplitJoin(ys, sep);
  }

  // ---- Trim ----

  function TrimLeft(s: string): string {
    if s != "" && s[0] == ' ' then TrimLeft(s[1..]) else s
  }

  function TrimRight(s: string): (r: string)
    ensures |r| <= |s| && r == s[..|r|]
    ensures r != "" ==> r[|r| - 1] != ' '
    ensures |r| == |s| <==> s == "" || s[|s| - 1] != ' '
  {
    if s != "" && s[|s| - 1] == ' ' then TrimRight(s[..|s| - 1]) else s
  }

  /** `strings.Trim(s, " ")`. */
  function Trim(s: string): string {
    TrimRight(TrimLeft(s))
  }

  lemma {:induction false} TrimRightAppend(a: string, b: string)
    requires a != "" && a[|a| - 1] != ' '
    ensures TrimRight(a + b) == a + TrimRight(b)
    decreases |b|
  {
    if b == "" {
      assert a + b == a;
    } else if b[|b| - 1] == ' ' {
      assert (a + b)[..|a + b| - 1] == a + b[..|b| - 1];
      TrimRightAppend(a, b[..|b| - 1]);
    }
  }

  predicate Spaces(s: string) {
    forall c | c in s :: c == ' '
  }

  /** No space at either end. */
  predicate Trimmed(s: string) {
    s == "" || (s[0] != ' ' && s[|s| - 1] != ' ')
  }

  lemma {:induction false} TrimLeftAt(a: string, rest: string)
    requires Spaces(a) && (rest == "" || rest[0] != ' ')
    ensures TrimLeft(a + rest) == rest
  {
    if a == "" {
      assert a + rest == rest;
    } else {
      assert a[0] in a && forall c | c in a[1..] :: c in a;
      assert (a + rest)[0] == ' ' && (a + rest)[1..] == a[1..] + rest;
      TrimLeftAt(a[1..], rest);
    }
  }

  lemma {:induction false} TrimRightAt(rest: string, b: string)
    requires Spaces(b) && (rest == "" || rest[|rest| - 1] != ' ')
    ensures TrimRight(rest + b) == rest
    decreases |b|
  {
    if b == "" {
      assert rest + b == rest;
    } else {
      var n := |b| - 1;
      assert b[n] in b && forall c | c in b[..n] :: c in b;
      assert (rest + b)[|rest + b| - 1] == ' ' && (rest + b)[..|rest + b| - 1] == rest + b[..n];
      TrimRightAt(rest, b[..n]);
    }
  }

  /** Trimming takes the spaces off both ends and nothing else. */
  lemma TrimExactly(a: string, m: string, b: string)
    requires Spaces(a) && Spaces(b) && Trimmed(m)
    ensures Trim(a + m + b) == m
  {
    if m == "" {
      assert a + m + b == (a + b) + "";
      assert Spaces(a + b);
      TrimLeftAt(a + b, "");
    } else {
      assert a + m + b == a + (m + b);
      TrimLeftAt(a, m + b);
      TrimRightAt(m, b);
    }
  }

  /** Every string is its trimmed part between two runs of spaces. */
  lemma TrimParts(s: string) returns (a: string, b: string)
    ensures s == a + Trim(s) + b && Spaces(a) && Spaces(b) && Trimmed(Trim(s))
  {
    a := LeadingSpaces(s);
    var rest := s[|a|..];
    b := TrailingSpaces(rest);
    var m := rest[..|rest| - |b|];
    assert s == a + m + b;
    TrimExactly(a, m, b);
  }

  lemma {:induction false} LeadingSpaces(s: string) returns (a: string)
    ensures a <= s && Spaces(a) && (|a| == |s| || s[|a|] != ' ')
  {
    if s == "" || s[0] != ' ' {
      a := "";
    } else {
      var rest := LeadingSpaces(s[1..]);
      a := [' '] + rest;
    }
  }

  lemma {:induction false} TrailingSpaces(s: string) returns (b: string)
    requires s == "" || s[0] != ' '
    ensures |b| <= |s| && s[|s| - |b|..] == b && Spaces(b) && Trimmed(s[..|s| - |b|])
    decreases |s|
  {
    if s == "" || s[|s| - 1] != ' ' {
      b := "";
      assert s[..|s|] == s;
    } else {
      var n := |s| - 1;
      var rest := TrailingSpaces(s[..n]);
      b := rest + [' '];
      assert s == s[..n] + [' '] && s[..n][..n - |rest|] == s[..|s| - |b|];
    }
  }
}
