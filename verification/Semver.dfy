/**
 Version precedence (pkg/utils/semver/semver.go) and the breaking-version test of the greptime binary
 (pkg/artifacts/manager.go). Precedence is sections 10 and 11 of Semantic Versioning 2.0.0; parsing is
 as lenient as the library gtctl calls: a leading `v` and a missing minor or patch number are accepted.
 */
module Semver {
  import opened Text
  import opened Decimal

  /** A pre-release identifier; digits that do not fit 64 bits compare as text. */
  datatype Ident = Numeric(n: nat) | Alnum(text: string)

  datatype Version = Version(major: nat, minor: nat, patch: nat, pre: seq<Ident>, build: string)

  // ---- Precedence ----

  predicate LessText(x: string, y: string) {
    y != "" && (x == "" || x[0] < y[0] || (x[0] == y[0] && LessText(x[1..], y[1..])))
  }

  predicate LessIdent(x: Ident, y: Ident) {
    match (x, y)
    case (Numeric(m), Numeric(n)) => m < n
    case (Numeric(_), Alnum(_)) => true
    case (Alnum(_), Numeric(_)) => false
    case (Alnum(s), Alnum(t)) => LessText(s, t)
  }

  /** Identifier by identifier; a proper prefix comes first. */
  predicate LessIdents(xs: seq<Ident>, ys: seq<Ident>) {
    ys != [] && (xs == [] || LessIdent(xs[0], ys[0]) || (xs[0] == ys[0] && LessIdents(xs[1..], ys[1..])))
  }

  predicate LessPre(xs: seq<Ident>, ys: seq<Ident>) {
    xs != [] && (ys == [] || LessIdents(xs, ys))
  }

  predicate Less(x: Version, y: Version) {
    if x.major != y.major then x.major < y.major
    else if x.minor != y.minor then x.minor < y.minor
    else if x.patch != y.patch then x.patch < y.patch
    else LessPre(x.pre, y.pre)
  }

  predicate SamePrecedence(x: Version, y: Version) {
    x.(build := "") == y.(build := "")
  }

  lemma {:induction false} LessTextOrder(x: string, y: string, z: string)
    ensures LessText(x, y) && LessText(y, z) ==> LessText(x, z)
    ensures !(LessText(x, y) && LessText(y, x))
    ensures LessText(x, y) || x == y || LessText(y, x)
    decreases |x|
  {
    if x != "" && y != "" {
      LessTextOrder(x[1..], y[1..], if z == "" then "" else z[1..]);
      assert x == [x[0]] + x[1..] && y == [y[0]] + y[1..];
    }
  }

  lemma LessIdentOrder(x: Ident, y: Ident, z: Ident)
    ensures LessIdent(x, y) && LessIdent(y, z) ==> LessIdent(x, z)
    ensures !(LessIdent(x, y) && LessIdent(y, x))
    ensures LessIdent(x, y) || x == y || LessIdent(y, x)
  {
    if x.Alnum? && y.Alnum? {
      LessTextOrder(x.text, y.text, if z.Alnum? then z.text else "");
    }
  }

  lemma {:induction false} LessIdentsOrder(xs: seq<Ident>, ys: seq<Ident>, zs: seq<Ident>)
    ensures LessIdents(xs, ys) && LessIdents(ys, zs) ==> LessIdents(xs, zs)
    ensures !(LessIdents(xs, ys) && LessIdents(ys, xs))
    ensures LessIdents(xs, ys) || xs == ys || LessIdents(ys, xs)
    decreases |xs|
  {
    if xs != [] && ys != [] {
      LessIdentsOrder(xs[1..], ys[1..], if zs == [] then [] else zs[1..]);
      LessIdentOrder(xs[0], ys[0], if zs == [] then xs[0] else zs[0]);
      assert xs == [xs[0]] + xs[1..] && ys == [ys[0]] + ys[1..];
    }
  }

  /** Precedence is a strict order, total up to build metadata, which plays no part in it. */
  lemma PrecedenceOrder(x: Version, y: Version, z: Version)
    ensures Less(x, y) && Less(y, z) ==> Less(x, z)
    ensures !(Less(x, y) && Less(y, x))
    ensures SamePrecedence(x, y) <==> !Less(x, y) && !Less(y, x)
    ensures SamePrecedence(x, y) ==> (Less(x, z) <==> Less(y, z)) && (Less(z, x) <==> Less(z, y))
  {
    LessIdentsOrder(x.pre, y.pre, z.pre);
  }

  // ---- Section 11, clause by clause ----

  predicate SameCore(x: Version, y: Version) {
    x.major == y.major && x.minor == y.minor && x.patch == y.patch
  }

  /** The first difference among major, minor and patch decides, the greater number being the greater version. */
  lemma CoreDecides(x: Version, y: Version)
    requires !SameCore(x, y)
    ensures Less(x, y) <==> x.major < y.major || (x.major == y.major && x.minor < y.minor)
                            || (x.major == y.major && x.minor == y.minor && x.patch < y.patch)
  {
  }

  /** With the same core, a pre-release comes before the release, and a release before nothing. */
  lemma PreReleaseBeforeRelease(x: Version, y: Version)
    requires SameCore(x, y)
    ensures x.pre != [] && y.pre == [] ==> Less(x, y)
    ensures x.pre == [] ==> !Less(x, y)
  {
  }

  /** The texts compare at position `j`: equal before it, and there the first text ends or has the lesser character. */
  predicate TextDecidedAt(s: string, t: string, j: nat) {
    j <= |s| && j < |t| && s[..j] == t[..j] && (j == |s| || s[j] < t[j])
  }

  lemma TextDecidedNext(s: string, t: string, j: nat)
    requires s != "" && t != "" && s[0] == t[0]
    ensures TextDecidedAt(s, t, j + 1) <==> TextDecidedAt(s[1..], t[1..], j)
  {
    if j <= |s| - 1 && j <= |t| - 1 {
      assert s[..j + 1] == [s[0]] + s[1..][..j] && t[..j + 1] == [t[0]] + t[1..][..j];
    }
  }

  lemma {:induction false} LessTextExactly(s: string, t: string)
    ensures LessText(s, t) <==> exists j :: TextDecidedAt(s, t, j)
    decreases |s|
  {
    if s != "" && t != "" && s[0] == t[0] {
      LessTextExactly(s[1..], t[1..]);
      if j: nat :| TextDecidedAt(s, t, j) {
        assert j > 0;
        TextDecidedNext(s, t, j - 1);
      }
      if j: nat :| TextDecidedAt(s[1..], t[1..], j) {
        TextDecidedNext(s, t, j);
      }
    } else if LessText(s, t) {
      assert TextDecidedAt(s, t, 0);
    } else {
      forall j: nat | 0 < j <= |s| && j < |t| ensures s[..j] != t[..j] {
        FirstOfPrefix(s, t, j);
      }
    }
  }

  lemma FirstOfPrefix<T>(s: seq<T>, t: seq<T>, j: nat)
    requires 0 < j <= |s| && j <= |t|
    ensures s[..j] == t[..j] ==> s[0] == t[0]
  {
    assert s[..j][0] == s[0] && t[..j][0] == t[0];
  }

  /** Numbers compare by value and come before text; text compares at its first differing character. */
  lemma LessIdentExactly(x: Ident, y: Ident)
    ensures x.Numeric? && y.Numeric? ==> (LessIdent(x, y) <==> x.n < y.n)
    ensures x.Numeric? && y.Alnum? ==> LessIdent(x, y) && !LessIdent(y, x)
    ensures x.Alnum? && y.Alnum? ==>
              (LessIdent(x, y) <==> exists j :: TextDecidedAt(x.text, y.text, j))
  {
    if x.Alnum? && y.Alnum? {
      LessTextExactly(x.text, y.text);
    }
  }

  /** The lists compare at position `k`: equal before it, and there the first list ends or has the lesser identifier. */
  predicate DecidedAt(xs: seq<Ident>, ys: seq<Ident>, k: nat) {
    k <= |xs| && k < |ys| && xs[..k] == ys[..k] && (k == |xs| || LessIdent(xs[k], ys[k]))
  }

  lemma DecidedNext(xs: seq<Ident>, ys: seq<Ident>, k: nat)
    requires xs != [] && ys != [] && xs[0] == ys[0]
    ensures DecidedAt(xs, ys, k + 1) <==> DecidedAt(xs[1..], ys[1..], k)
  {
    if k <= |xs| - 1 && k <= |ys| - 1 {
      assert xs[..k + 1] == [xs[0]] + xs[1..][..k] && ys[..k + 1] == [ys[0]] + ys[1..][..k];
    }
  }

  lemma {:induction false} LessIdentsExactly(xs: seq<Ident>, ys: seq<Ident>)
    ensures LessIdents(xs, ys) <==> exists k :: DecidedAt(xs, ys, k)
    decreases |xs|
  {
    if xs != [] && ys != [] && xs[0] == ys[0] {
      LessIdentOrder(xs[0], ys[0], xs[0]);
      LessIdentsExactly(xs[1..], ys[1..]);
      if k: nat :| DecidedAt(xs, ys, k) {
        assert k > 0;
        DecidedNext(xs, ys, k - 1);
      }
      if k: nat :| DecidedAt(xs[1..], ys[1..], k) {
        DecidedNext(xs, ys, k);
      }
    } else if LessIdents(xs, ys) {
      assert DecidedAt(xs, ys, 0);
    } else {
      forall k: nat | 0 < k <= |xs| && k < |ys| ensures xs[..k] != ys[..k] {
        FirstOfPrefix(xs, ys, k);
      }
    }
  }

  /** With the same core, two pre-releases compare at the first differing identifier, a proper prefix coming first. */
  lemma PreReleasesExactly(x: Version, y: Version)
    requires SameCore(x, y) && x.pre != [] && y.pre != []
    ensures Less(x, y) <==> exists k :: DecidedAt(x.pre, y.pre, k)
  {
    LessIdentsExactly(x.pre, y.pre);
  }

  function One(pre: seq<Ident>): Version {
    Version(1, 0, 0, pre, "")
  }

  /** The chain of section 11, from `1.0.0-alpha` to `1.0.0`. */
  lemma SectionChain()
    ensures var alpha, beta, rc := Alnum("alpha"), Alnum("beta"), Alnum("rc");
            && Less(One([alpha]), One([alpha, Numeric(1)]))
            && Less(One([alpha, Numeric(1)]), One([alpha, beta]))
            && Less(One([alpha, beta]), One([beta]))
            && Less(One([beta]), One([beta, Numeric(2)]))
            && Less(One([beta, Numeric(2)]), One([beta, Numeric(11)]))
            && Less(One([beta, Numeric(11)]), One([rc, Numeric(1)]))
            && Less(One([rc, Numeric(1)]), One([]))
  {
    var alpha, beta, rc := Alnum("alpha"), Alnum("beta"), Alnum("rc");
    Extended([alpha], Numeric(1));
    Extended([beta], Numeric(2));
    Diverges([alpha], Numeric(1), beta, []);
    Diverges([beta], Numeric(2), Numeric(11), []);
    assert alpha.text[0] < beta.text[0] && beta.text[0] < rc.text[0];
    FirstTail(alpha, [beta], beta, []);
    FirstTail(beta, [Numeric(11)], rc, [Numeric(1)]);
    ChainLists(alpha, beta, rc);
  }

  lemma ChainLists(a: Ident, b: Ident, r: Ident)
    ensures [a] + [Numeric(1)] == [a, Numeric(1)] && [a] + [b] + [] == [a, b] == [a] + [b]
    ensures [b] + [Numeric(2)] == [b, Numeric(2)] && [b] + [Numeric(11)] + [] == [b, Numeric(11)] == [b] + [Numeric(11)]
    ensures [b] + [] == [b] && [r] + [Numeric(1)] == [r, Numeric(1)]
  {
  }

  lemma Extended(xs: seq<Ident>, y: Ident)
    requires xs != []
    ensures Less(One(xs), One(xs + [y]))
  {
    assert DecidedAt(xs, xs + [y], |xs|);
    PreReleasesExactly(One(xs), One(xs + [y]));
  }

  /** Behind a common start the lesser identifier decides. */
  lemma FirstTail(x: Ident, xs: seq<Ident>, y: Ident, ys: seq<Ident>)
    requires LessIdent(x, y)
    ensures Less(One([x] + xs), One([y] + ys))
  {
    assert DecidedAt([x] + xs, [y] + ys, 0);
    PreReleasesExactly(One([x] + xs), One([y] + ys));
  }

  lemma Diverges(common: seq<Ident>, x: Ident, y: Ident, ys: seq<Ident>)
    requires LessIdent(x, y)
    ensures Less(One(common + [x]), One(common + [y] + ys))
  {
    assert DecidedAt(common + [x], common + [y] + ys, |common|);
    PreReleasesExactly(One(common + [x]), One(common + [y] + ys));
  }

  // ---- Parsing ----

  predicate IsIdentChar(c: char) {
    IsDigit(c) || 'A' <= c <= 'Z' || 'a' <= c <= 'z' || c == '-'
  }

  predicate IsIdentText(s: string) {
    s != "" && forall c | c in s :: IsIdentChar(c)
  }

  /** No empty identifier, no foreign character, no leading zero in a number. */
  predicate PreOk(parts: seq<string>) {
    forall p | p in parts :: IsIdentText(p) && (AllDigits(p) && |p| > 1 ==> p[0] != '0')
  }

  function ToIdent(p: string): Ident {
    if p != "" && Scan(p, 0).Num? then Numeric(Scan(p, 0).n) else Alnum(p)
  }

  function ToIdents(parts: seq<string>): seq<Ident> {
    seq(|parts|, i requires 0 <= i < |parts| => ToIdent(parts[i]))
  }

  predicate IsNumber(s: string) {
    s != "" && Scan(s, 0).Num?
  }

  function Number(parts: seq<string>, i: nat): nat
    requires forall p | p in parts :: IsNumber(p)
  {
    if i < |parts| then
      assert IsNumber(parts[i]);
      Scan(parts[i], 0).n
    else 0
  }

  function ParseCore(core: string, pre: seq<Ident>, build: string): Option<Version> {
    var parts := Split(core, '.');
    if |parts| <= 3 && forall p | p in parts :: IsNumber(p)
    then Some(Version(Number(parts, 0), Number(parts, 1), Number(parts, 2), pre, build))
    else None
  }

  function ParsePre(s: string, build: string): Option<Version> {
    if '-' !in s then ParseCore(s, [], build)
    else
      var i := IndexOf(s, '-');
      var parts := Split(s[i + 1..], '.');
      if PreOk(parts) then ParseCore(s[..i], ToIdents(parts), build) else None
  }

  function ParseBody(s: string): Option<Version> {
    if '+' !in s then ParsePre(s, "")
    else
      var i := IndexOf(s, '+');
      var build := s[i + 1..];
      if forall p | p in Split(build, '.') :: IsIdentText(p) then ParsePre(s[..i], build) else None
  }

  function NewVersion(s: string): Option<Version> {
    ParseBody(if s != "" && s[0] == 'v' then s[1..] else s)
  }

  /** True if the first version is greater; an error if either does not parse. */
  function Compare(v1: string, v2: string): Result<bool> {
    match (NewVersion(v1), NewVersion(v2))
    case (Some(x), Some(y)) => Ok(Less(y, x))
    case _ => Err("invalid semantic version")
  }

  // ---- Versions as text ----

  /** A version text by its parts: an optional leading `v`, one to three numbers, identifiers, build metadata. */
  datatype Shape = Shape(lead: bool, numbers: seq<string>, pre: seq<string>, build: seq<string>)

  function Part(mark: char, parts: seq<string>): string {
    if parts == [] then "" else [mark] + Join(parts, '.')
  }

  function ShapeText(f: Shape): string {
    (if f.lead then "v" else "") + (Join(f.numbers, '.') + Part('-', f.pre) + Part('+', f.build))
  }

  predicate ShapeOk(f: Shape) {
    && 1 <= |f.numbers| <= 3 && (forall p | p in f.numbers :: IsNumber(p))
    && PreOk(f.pre)
    && forall p | p in f.build :: IsIdentText(p)
  }

  /** Missing numbers are zero. */
  function Meaning(f: Shape): Version
    requires ShapeOk(f)
  {
    Version(Number(f.numbers, 0), Number(f.numbers, 1), Number(f.numbers, 2), ToIdents(f.pre), Join(f.build, '.'))
  }

  lemma {:induction false} JoinFree(parts: seq<string>, sep: char, c: char)
    requires c != sep && forall p | p in parts :: c !in p
    ensures c !in Join(parts, sep)
  {
    if |parts| > 1 {
      JoinFree(parts[1..], sep, c);
    }
  }

  /** Numbers are digits, identifiers have no dot and no plus sign. */
  lemma NumberChars(p: string)
    requires IsNumber(p)
    ensures forall c | c in p :: IsDigit(c)
  {
    ScanRange(p, 0);
  }

  lemma CoreChars(numbers: seq<string>)
    requires numbers != [] && forall p | p in numbers :: IsNumber(p)
    ensures '-' !in Join(numbers, '.') && '+' !in Join(numbers, '.')
    ensures Join(numbers, '.') != "" && Join(numbers, '.')[0] != 'v'
    ensures Split(Join(numbers, '.'), '.') == numbers
  {
    forall p | p in numbers ensures '-' !in p && '+' !in p && '.' !in p && p != "" && p[0] != 'v' {
      NumberChars(p);
    }
    JoinFree(numbers, '.', '-');
    JoinFree(numbers, '.', '+');
    SplitJoin(numbers, '.');
    assert numbers[0] in numbers;
  }

  lemma CoreReads(numbers: seq<string>, pre: seq<Ident>, build: string)
    requires 1 <= |numbers| <= 3 && forall p | p in numbers :: IsNumber(p)
    ensures ParseCore(Join(numbers, '.'), pre, build)
         == Some(Version(Number(numbers, 0), Number(numbers, 1), Number(numbers, 2), pre, build))
  {
    CoreChars(numbers);
  }

  lemma IdentChars(parts: seq<string>)
    requires parts != [] && forall p | p in parts :: IsIdentText(p)
    ensures '+' !in Join(parts, '.') && Split(Join(parts, '.'), '.') == parts
  {
    JoinFree(parts, '.', '+');
    SplitJoin(parts, '.');
  }

  lemma CutAt(a: string, mark: char, b: string)
    requires mark !in a
    ensures var s := a + ([mark] + b); mark in s && s[..IndexOf(s, mark)] == a && s[IndexOf(s, mark) + 1..] == b
  {
    IndexOfAt(a, mark, b);
    var s := a + ([mark] + b);
    assert s == a + [mark] + b && s[|a|] == mark;
  }

  lemma ReleaseChars(numbers: seq<string>, pre: seq<string>)
    requires numbers != [] && (forall p | p in numbers :: IsNumber(p)) && PreOk(pre)
    ensures var s := Join(numbers, '.') + Part('-', pre); '+' !in s && s != "" && s[0] != 'v'
  {
    CoreChars(numbers);
    if pre != [] {
      IdentChars(pre);
    }
    hide IsNumber, PreOk, Join, Split;
  }

  lemma PreReads(core: string, pre: seq<string>, build: string)
    requires '-' !in core && PreOk(pre)
    ensures ParsePre(core + Part('-', pre), build) == ParseCore(core, ToIdents(pre), build)
  {
    if pre == [] {
      assert core + "" == core && ToIdents(pre) == [];
    } else {
      IdentChars(pre);
      hide PreOk, ParseCore, Join, Split, ToIdents;
      CutAt(core, '-', Join(pre, '.'));
    }
  }

  lemma ReleaseReads(numbers: seq<string>, pre: seq<string>, build: string)
    requires 1 <= |numbers| <= 3 && (forall p | p in numbers :: IsNumber(p)) && PreOk(pre)
    ensures ParsePre(Join(numbers, '.') + Part('-', pre), build)
         == Some(Version(Number(numbers, 0), Number(numbers, 1), Number(numbers, 2), ToIdents(pre), build))
  {
    CoreChars(numbers);
    CoreReads(numbers, ToIdents(pre), build);
    hide Join, Split, ParsePre, ParseCore, PreOk, IsNumber, Number;
    PreReads(Join(numbers, '.'), pre, build);
  }

  /** Every text of the grammar is read as what its parts mean. */
  lemma ShapeReads(f: Shape)
    requires ShapeOk(f)
    ensures NewVersion(ShapeText(f)) == Some(Meaning(f))
  {
    var rel, build := Join(f.numbers, '.') + Part('-', f.pre), Join(f.build, '.');
    ReleaseChars(f.numbers, f.pre);
    ReleaseReads(f.numbers, f.pre, build);
    var body := rel + Part('+', f.build);
    assert body[0] == rel[0] && (['v'] + body)[1..] == body;
    assert ShapeText(f) == if f.lead then ['v'] + body else body;
    hide Join, Split, ParsePre;
    BodyReads(rel, f.build, Meaning(f));
  }

  lemma BodyReads(rel: string, build: seq<string>, v: Version)
    requires '+' !in rel && ParsePre(rel, Join(build, '.')) == Some(v)
    requires forall p | p in build :: IsIdentText(p)
    ensures ParseBody(rel + Part('+', build)) == Some(v)
  {
    if build == [] {
      assert rel + "" == rel;
    } else {
      CutAt(rel, '+', Join(build, '.'));
      IdentChars(build);
    }
  }

  lemma CutFirst(s: string, mark: char) returns (a: string, parts: seq<string>)
    requires mark in s
    ensures var i := IndexOf(s, mark); a == s[..i] && parts == Split(s[i + 1..], '.')
    ensures a + Part(mark, parts) == s
  {
    var i := IndexOf(s, mark);
    a, parts := s[..i], Split(s[i + 1..], '.');
    JoinSplit(s[i + 1..], '.');
    assert s == s[..i] + ([mark] + s[i + 1..]);
  }

  lemma ReleaseShape(s: string, build: string) returns (numbers: seq<string>, pre: seq<string>)
    requires ParsePre(s, build).Some?
    ensures 1 <= |numbers| <= 3 && (forall p | p in numbers :: IsNumber(p)) && PreOk(pre)
    ensures Join(numbers, '.') + Part('-', pre) == s
  {
    var core;
    core, pre := s, [];
    if '-' in s {
      core, pre := CutFirst(s, '-');
    }
    numbers := Split(core, '.');
    JoinSplit(core, '.');
    assert core + "" == core;
  }

  lemma BodyShape(s: string) returns (f: Shape)
    requires ParseBody(s).Some?
    ensures ShapeOk(f) && !f.lead && Join(f.numbers, '.') + Part('-', f.pre) + Part('+', f.build) == s
  {
    var rel, build, text := s, [], "";
    if '+' in s {
      rel, build := CutFirst(s, '+');
      text := s[IndexOf(s, '+') + 1..];
    }
    assert ParsePre(rel, text).Some? && rel + Part('+', build) == s;
    assert forall p | p in build :: IsIdentText(p);
    hide Split, Join, ParseBody, ParsePre, PreOk, IsIdentText, IsNumber;
    var numbers, pre := ReleaseShape(rel, text);
    f := Shape(false, numbers, pre, build);
  }

  /** Whatever is accepted is a text of the grammar. */
  lemma ShapeOf(s: string) returns (f: Shape)
    requires NewVersion(s).Some?
    ensures ShapeOk(f) && ShapeText(f) == s
  {
    hide Join, Part, ParseBody;
    if s != "" && s[0] == 'v' {
      f := BodyShape(s[1..]);
      f := f.(lead := true);
      assert "v" + s[1..] == s;
    } else {
      f := BodyShape(s);
      assert "" + s == s;
    }
  }

  /** The grammar of the parser: a text is read as a version exactly when some shape of it means that version. */
  lemma ReadsExactly(s: string, v: Version)
    ensures NewVersion(s) == Some(v) <==> exists f :: ShapeOk(f) && ShapeText(f) == s && Meaning(f) == v
  {
    if NewVersion(s) == Some(v) {
      var f := ShapeOf(s);
      ShapeReads(f);
    }
    if f :| ShapeOk(f) && ShapeText(f) == s && Meaning(f) == v {
      ShapeReads(f);
    }
  }

  function IdentText(x: Ident): string {
    match x
    case Numeric(n) => Digits(n)
    case Alnum(text) => text
  }

  function IdentTexts(xs: seq<Ident>): seq<string> {
    seq(|xs|, i requires 0 <= i < |xs| => IdentText(xs[i]))
  }

  /** The shape a version is written in. */
  function Spelled(v: Version, lead: bool): Shape {
    Shape(lead, [Digits(v.major), Digits(v.minor), Digits(v.patch)], IdentTexts(v.pre),
          if v.build == "" then [] else Split(v.build, '.'))
  }

  function VersionText(v: Version): string {
    ShapeText(Spelled(v, false))
  }

  predicate IdentOk(x: Ident) {
    match x
    case Numeric(n) => n <= MAX_UINT64
    case Alnum(text) => PreOk([text]) && !Scan(text, 0).Num?
  }

  /** Numbers of 64 bits, identifiers the grammar allows. */
  predicate VersionOk(v: Version) {
    && v.major <= MAX_UINT64 && v.minor <= MAX_UINT64 && v.patch <= MAX_UINT64
    && (forall x | x in v.pre :: IdentOk(x))
    && (v.build == "" || forall p | p in Split(v.build, '.') :: IsIdentText(p))
  }

  lemma IdentTextParses(x: Ident)
    requires IdentOk(x)
    ensures PreOk([IdentText(x)]) && ToIdent(IdentText(x)) == x
  {
    match x
    case Numeric(n) =>
      ScanDigits(n);
      DigitsLead(n);
    case Alnum(text) =>
      assert IsIdentText([text][0]);
  }

  lemma IdentTextsParse(xs: seq<Ident>)
    requires forall x | x in xs :: IdentOk(x)
    ensures PreOk(IdentTexts(xs)) && ToIdents(IdentTexts(xs)) == xs
  {
    forall p | p in IdentTexts(xs) ensures PreOk([p]) && p in [p] {
      var i :| 0 <= i < |xs| && p == IdentTexts(xs)[i];
      IdentTextParses(xs[i]);
    }
    forall i | 0 <= i < |xs| ensures ToIdent(IdentTexts(xs)[i]) == xs[i] {
      IdentTextParses(xs[i]);
    }
  }

  /** Parsing undoes writing, with or without the leading `v`. */
  lemma ParseText(v: Version, lead: bool)
    requires VersionOk(v)
    ensures NewVersion(ShapeText(Spelled(v, lead))) == Some(v)
  {
    var f := Spelled(v, lead);
    ScanDigits(v.major);
    ScanDigits(v.minor);
    ScanDigits(v.patch);
    IdentTextsParse(v.pre);
    JoinSplit(v.build, '.');
    assert Join([], '.') == "";
    hide Scan, Digits, Split, Join, ToIdents, PreOk, IsIdentText;
    assert f.numbers[0] == Digits(v.major) && f.numbers[1] == Digits(v.minor) && f.numbers[2] == Digits(v.patch);
    assert ShapeOk(f);
    assert Meaning(f) == v;
    ShapeReads(f);
  }

  lemma ToIdentOk(p: string)
    requires PreOk([p])
    ensures IdentOk(ToIdent(p))
  {
    assert IsIdentText([p][0]);
    if Scan(p, 0).Num? {
      ScanRange(p, 0);
    }
  }

  lemma MeaningOk(f: Shape)
    requires ShapeOk(f)
    ensures VersionOk(Meaning(f))
  {
    forall i: nat ensures Number(f.numbers, i) <= MAX_UINT64 {
      if i < |f.numbers| {
        assert IsNumber(f.numbers[i]);
        ScanRange(f.numbers[i], 0);
      }
    }
    forall x | x in ToIdents(f.pre) ensures IdentOk(x) {
      var k :| 0 <= k < |f.pre| && x == ToIdents(f.pre)[k];
      ToIdentOk(f.pre[k]);
    }
    if f.build != [] {
      IdentChars(f.build);
    }
  }

  /** The parser accepts some text for a version exactly when its own text is one. */
  lemma ParsesExactly(v: Version)
    ensures (exists s :: NewVersion(s) == Some(v)) <==> VersionOk(v)
    ensures VersionOk(v) <==> NewVersion(VersionText(v)) == Some(v)
  {
    if s :| NewVersion(s) == Some(v) {
      var f := ShapeOf(s);
      ShapeReads(f);
      MeaningOk(f);
    }
    if VersionOk(v) {
      ParseText(v, false);
    }
  }

  // ---- The breaking version ----

  const BREAKING_CHANGE_VERSION := "v0.4.0-nightly-20230802"

  function IsBreakingVersion(version: string): Result<bool> {
    match Compare(version, BREAKING_CHANGE_VERSION)
    case Err(e) => Err(e)
    case Ok(newVersion) => Ok(newVersion || version == BREAKING_CHANGE_VERSION)
  }

  /** Anything newer than a breaking version is breaking. */
  lemma BreakingUpwardClosed(v: string, w: string)
    requires IsBreakingVersion(v) == Ok(true) && Compare(w, v) == Ok(true)
    ensures IsBreakingVersion(w) == Ok(true)
  {
    var x, y := NewVersion(v).value, NewVersion(w).value;
    var b := NewVersion(BREAKING_CHANGE_VERSION).value;
    PrecedenceOrder(b, x, y);
  }

  /**
   Being breaking is not a matter of precedence alone: the threshold itself is recognised by its exact
   spelling. A version at or above the threshold is reported as such exactly when it is not another
   spelling of the threshold, and nothing below it ever is.
   */
  lemma BreakingExactly(v: string, x: Version, b: Version)
    requires NewVersion(v) == Some(x) && NewVersion(BREAKING_CHANGE_VERSION) == Some(b)
    ensures IsBreakingVersion(v) == Ok(!Less(x, b)) <==> !SamePrecedence(x, b) || v == BREAKING_CHANGE_VERSION
    ensures Less(x, b) ==> IsBreakingVersion(v) == Ok(false)
  {
    PrecedenceOrder(x, b, b);
  }

  lemma JoinThree(a: string, b: string, c: string)
    ensures Join([a, b, c], '.') == a + ['.'] + (b + ['.'] + c)
  {
    assert [a, b, c][1..] == [b, c] && [b, c][1..] == [c];
    assert Join([b, c], '.') == b + ['.'] + Join([c], '.');
  }

  /** A missing minor or patch number is zero. */
  lemma ShortCores(a: nat, b: nat)
    requires a <= MAX_UINT64 && b <= MAX_UINT64
    ensures NewVersion(Digits(a)) == Some(Version(a, 0, 0, [], ""))
    ensures NewVersion(Digits(a) + ['.'] + Digits(b)) == Some(Version(a, b, 0, [], ""))
  {
    ScanDigits(a);
    ScanDigits(b);
    var one, two := Shape(false, [Digits(a)], [], []), Shape(false, [Digits(a), Digits(b)], [], []);
    JoinCons(Digits(a), [Digits(b)], '.');
    assert [Digits(a)] + [Digits(b)] == two.numbers && two.numbers[1] == Digits(b);
    hide Scan, Digits, NewVersion;
    assert ToIdents([]) == [];
    assert Part('-', []) == "" && Join([], '.') == "";
    NothingAround(Join(one.numbers, '.'));
    NothingAround(Join(two.numbers, '.'));
    ShapeReads(one);
    ShapeReads(two);
  }

  lemma NothingAround(s: string)
    ensures "" + (s + "" + "") == s
  {
  }

  lemma SingleDigitText(v: Version, lead: bool)
    requires v.major < 10 && v.minor < 10 && v.patch < 10 && v.build == ""
    ensures ShapeText(Spelled(v, lead))
         == (if lead then "v" else "")
            + ([DigitChar(v.major), '.', DigitChar(v.minor), '.', DigitChar(v.patch)] + Part('-', IdentTexts(v.pre)))
  {
    var a, b, c := DigitChar(v.major), DigitChar(v.minor), DigitChar(v.patch);
    assert Digits(v.major) == [a] && Digits(v.minor) == [b] && Digits(v.patch) == [c];
    JoinThree([a], [b], [c]);
    hide Digits, Join, Split, DigitChar;
    var core, tail := [a, '.', b, '.', c], Part('-', IdentTexts(v.pre));
    assert Join([[a], [b], [c]], '.') == core;
    assert core + tail + "" == core + tail;
  }

  /** A `0.4.0` pre-release with one textual identifier parses alike with and without the leading `v`. */
  lemma TaggedParses(core: string, pre: string)
    requires core == ['0', '.', '4', '.', '0']
    requires IsIdentText(pre) && !IsDigit(pre[0])
    ensures NewVersion(core + ['-'] + pre) == Some(Version(0, 4, 0, [Alnum(pre)], ""))
    ensures NewVersion(['v'] + (core + ['-'] + pre)) == NewVersion(core + ['-'] + pre)
  {
    var v := Version(0, 4, 0, [Alnum(pre)], "");
    assert VersionOk(v);
    ParseText(v, false);
    ParseText(v, true);
    TaggedText(v, pre, core, false);
    TaggedText(v, pre, core, true);
    hide *;
    assert "" + (core + ['-'] + pre) == core + ['-'] + pre;
  }

  lemma TaggedText(v: Version, pre: string, core: string, lead: bool)
    requires v == Version(0, 4, 0, [Alnum(pre)], "") && core == ['0', '.', '4', '.', '0']
    ensures ShapeText(Spelled(v, lead)) == (if lead then "v" else "") + (core + ['-'] + pre)
  {
    SingleDigitText(v, lead);
    assert core == [DigitChar(0), '.', DigitChar(4), '.', DigitChar(0)];
    assert IdentTexts(v.pre) == [pre];
    hide Spelled, ShapeText, DigitChar;
    assert Part('-', [pre]) == ['-'] + pre;
    assert core + (['-'] + pre) == core + ['-'] + pre;
  }

  lemma ThresholdText()
    ensures var core, pre := ['0', '.', '4', '.', '0'], "nightly-20230802";
            && BREAKING_CHANGE_VERSION == ['v'] + (core + ['-'] + pre)
            && IsIdentText(pre) && !IsDigit(pre[0])
  {
  }

  /** The same version without its `v` is not recognised as breaking. */
  lemma BreakingWitness()
    ensures IsBreakingVersion(BREAKING_CHANGE_VERSION) == Ok(true)
    ensures IsBreakingVersion(BREAKING_CHANGE_VERSION[1..]) == Ok(false)
  {
    ThresholdText();
    SpellingMatters(BREAKING_CHANGE_VERSION[1..], ['0', '.', '4', '.', '0'], "nightly-20230802");
  }

  lemma SpellingMatters(v: string, core: string, pre: string)
    requires core == ['0', '.', '4', '.', '0']
    requires IsIdentText(pre) && !IsDigit(pre[0])
    requires v == core + ['-'] + pre && BREAKING_CHANGE_VERSION == ['v'] + v
    ensures IsBreakingVersion(BREAKING_CHANGE_VERSION) == Ok(true) && IsBreakingVersion(v) == Ok(false)
  {
    TaggedParses(core, pre);
    var b := Version(0, 4, 0, [Alnum(pre)], "");
    PrecedenceOrder(b, b, b);
    assert |BREAKING_CHANGE_VERSION| == |v| + 1;
  }

  // ---- Which versions are breaking ----

  /** The core is at least, or above, `0.4.0`. */
  predicate CoreAbove(x: Version) {
    x.major > 0 || x.minor > 4 || (x.minor == 4 && x.patch > 0)
  }

  predicate CoreEqual(x: Version) {
    x.major == 0 && x.minor == 4 && x.patch == 0
  }

  lemma ThresholdParses()
    ensures NewVersion(BREAKING_CHANGE_VERSION) == Some(Version(0, 4, 0, [Alnum("nightly-20230802")], ""))
  {
    ThresholdText();
    TaggedParses(['0', '.', '4', '.', '0'], "nightly-20230802");
  }

  /**
   The answer by the numbers: a core above `0.4.0`, the release `0.4.0`, a pre-release of it that is later
   than `nightly-20230802`, or the threshold as it is spelled.
   */
  lemma BreakingByNumbers(v: string)
    ensures IsBreakingVersion(v).Err? <==> NewVersion(v) == None
    ensures NewVersion(v).Some? ==>
              var x := NewVersion(v).value;
              IsBreakingVersion(v) == Ok(|| v == BREAKING_CHANGE_VERSION
                                         || CoreAbove(x)
                                         || (CoreEqual(x) && x.pre == [])
                                         || (CoreEqual(x) && exists k :: DecidedAt([Alnum("nightly-20230802")], x.pre, k)))
  {
    ThresholdParses();
    if NewVersion(v).Some? {
      BreakingAgainst(v, NewVersion(v).value, Version(0, 4, 0, [Alnum("nightly-20230802")], ""));
    }
  }

  lemma BreakingAgainst(v: string, x: Version, b: Version)
    requires NewVersion(v) == Some(x) && NewVersion(BREAKING_CHANGE_VERSION) == Some(b)
    requires CoreEqual(b) && b.pre != []
    ensures IsBreakingVersion(v) == Ok(|| v == BREAKING_CHANGE_VERSION
                                       || CoreAbove(x)
                                       || (CoreEqual(x) && x.pre == [])
                                       || (CoreEqual(x) && exists k :: DecidedAt(b.pre, x.pre, k)))
  {
    hide NewVersion, Less, DecidedAt;
    assert IsBreakingVersion(v) == Ok(Less(b, x) || v == BREAKING_CHANGE_VERSION);
    if !SameCore(b, x) {
      CoreDecides(b, x);
    } else if x.pre == [] {
      PreReleaseBeforeRelease(b, x);
    } else {
      PreReleasesExactly(b, x);
    }
  }

  lemma SingleDigits(text: string, a: nat, b: nat, c: nat)
    requires a < 10 && b < 10 && c < 10
    requires text == ['v', DigitChar(a), '.', DigitChar(b), '.', DigitChar(c)]
    ensures NewVersion(text) == Some(Version(a, b, c, [], ""))
  {
    var v := Version(a, b, c, [], "");
    ParseText(v, true);
    SingleDigitText(v, true);
    hide NewVersion, Spelled, ShapeText, DigitChar;
    assert Part('-', IdentTexts(v.pre)) == "";
    assert text == "v" + (text[1..] + "");
  }

  /** The first release with the new names is breaking, the last number before it is not. */
  lemma ReleaseBreaking()
    ensures IsBreakingVersion("v0.4.0") == Ok(true) && IsBreakingVersion("v0.3.9") == Ok(false)
  {
    SingleDigits("v0.4.0", 0, 4, 0);
    SingleDigits("v0.3.9", 0, 3, 9);
    hide NewVersion, IsBreakingVersion, DecidedAt;
    BreakingByNumbers("v0.4.0");
    BreakingByNumbers("v0.3.9");
    assert |BREAKING_CHANGE_VERSION| > |"v0.3.9"|;
  }
}
