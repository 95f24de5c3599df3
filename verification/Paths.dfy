/**
 Slash-separated paths as Go's `path/filepath` treats them on Unix: `Clean`, `Join`, `Dir`, `Base` and `Ext`.
 gtctl derives every location it writes to, and so the key of its artifact cache, through these functions.
 */
module Paths {
  import opened Text

  /** The elements of a path after dropping empty and `.` elements and resolving `..`. */
  function Reduce(parts: seq<string>, rooted: bool, stack: seq<string>): seq<string> {
    if parts == [] then stack
    else
      var p, rest := parts[0], parts[1..];
      if p == "" || p == "." then Reduce(rest, rooted, stack)
      else if p != ".." then Reduce(rest, rooted, stack + [p])
      else if stack != [] && stack[|stack| - 1] != ".." then Reduce(rest, rooted, stack[..|stack| - 1])
      else if rooted then Reduce(rest, rooted, stack)
      else Reduce(rest, rooted, stack + [".."])
  }

  predicate Rooted(path: string) {
    path != "" && path[0] == '/'
  }

  function Elements(path: string): seq<string> {
    Reduce(Split(path, '/'), Rooted(path), [])
  }

  function Spell(rooted: bool, elements: seq<string>): string {
    if rooted then ['/'] + Join(elements, '/')
    else if elements == [] then "."
    else Join(elements, '/')
  }

  function Clean(path: string): string {
    if path == "" then "." else Spell(Rooted(path), Elements(path))
  }

  function PathJoin(elems: seq<string>): string {
    if elems == [] then ""
    else if elems[0] == "" then PathJoin(elems[1..])
    else Clean(Join(elems, '/'))
  }

  function Dir(path: string): string {
    Clean(if '/' in path then path[..LastIndexOf(path, '/') + 1] else "")
  }

  function StripSlashes(path: string): string {
    if path != "" && path[|path| - 1] == '/' then StripSlashes(path[..|path| - 1]) else path
  }

  /** What follows the last slash. */
  function LastPart(rest: string): string {
    if '/' in rest then rest[LastIndexOf(rest, '/') + 1..] else rest
  }

  function Base(path: string): string {
    var p := StripSlashes(path);
    if path == "" then "."
    else if p == "" then "/"
    else LastPart(p)
  }

  /** The suffix from the last dot of the last element. */
  function Ext(path: string): string {
    var last := LastPart(path);
    if '.' in last then last[LastIndexOf(last, '.')..] else ""
  }

  /** The elements of several paths, one after the other. */
  function Pieces(paths: seq<string>): seq<string> {
    if paths == [] then [] else Split(paths[0], '/') + Pieces(paths[1..])
  }

  lemma {:induction false} SplitPieces(paths: seq<string>)
    requires paths != []
    ensures Split(Join(paths, '/'), '/') == Pieces(paths)
  {
    if |paths| == 1 {
      assert paths[1..] == [];
    } else {
      SplitConcat(paths[0], Join(paths[1..], '/'), '/');
      SplitPieces(paths[1..]);
    }
  }

  lemma {:induction false} PiecesConcat(xs: seq<string>, ys: seq<string>)
    ensures Pieces(xs + ys) == Pieces(xs) + Pieces(ys)
  {
    if xs == [] {
      assert xs + ys == ys;
    } else {
      assert (xs + ys)[0] == xs[0] && (xs + ys)[1..] == xs[1..] + ys;
      PiecesConcat(xs[1..], ys);
    }
  }

  lemma {:induction false} PiecesPlain(words: seq<string>)
    requires forall w | w in words :: '/' !in w
    ensures Pieces(words) == words
  {
    if words != [] {
      PiecesPlain(words[1..]);
    }
  }

  // ---- Clean paths ----

  /** One proper path element. */
  predicate Segment(s: string) {
    s != "" && s != "." && s != ".." && '/' !in s
  }

  /** What `Reduce` produces: proper elements, behind a run of `..` if the path is relative. */
  ghost predicate Normal(rooted: bool, elements: seq<string>) {
    forall i | 0 <= i < |elements| ::
      Segment(elements[i]) || (elements[i] == ".." && !rooted && forall j | 0 <= j < i :: elements[j] == "..")
  }

  lemma {:induction false} ReduceNormal(parts: seq<string>, rooted: bool, stack: seq<string>)
    requires (forall p | p in parts :: '/' !in p) && Normal(rooted, stack)
    ensures Normal(rooted, Reduce(parts, rooted, stack))
  {
    if parts != [] {
      var p, rest := parts[0], parts[1..];
      if p == "" || p == "." {
        ReduceNormal(rest, rooted, stack);
      } else if p != ".." {
        ReduceNormal(rest, rooted, stack + [p]);
      } else if stack != [] && stack[|stack| - 1] != ".." {
        ReduceNormal(rest, rooted, stack[..|stack| - 1]);
      } else if rooted {
        ReduceNormal(rest, rooted, stack);
      } else {
        ReduceNormal(rest, rooted, stack + [".."]);
      }
    }
  }

  lemma {:induction false} NormalStays(a: seq<string>, b: seq<string>, rooted: bool)
    requires Normal(rooted, a + b)
    ensures Reduce(b, rooted, a) == a + b
    decreases |b|
  {
    if b == [] {
      assert a + b == a;
    } else {
      assert (a + b)[|a|] == b[0];
      assert a + b == (a + [b[0]]) + b[1..];
      assert a != [] ==> (a + b)[|a| - 1] == a[|a| - 1];
      NormalStays(a + [b[0]], b[1..], rooted);
    }
  }

  lemma {:induction false} ReduceConcat(a: seq<string>, b: seq<string>, rooted: bool, stack: seq<string>)
    ensures Reduce(a + b, rooted, stack) == Reduce(b, rooted, Reduce(a, rooted, stack))
  {
    if a == [] {
      assert a + b == b;
    } else {
      var p := a[0];
      assert (a + b)[0] == p && (a + b)[1..] == a[1..] + b;
      var next :=
        if p == "" || p == "." then stack
        else if p != ".." then stack + [p]
        else if stack != [] && stack[|stack| - 1] != ".." then stack[..|stack| - 1]
        else if rooted then stack
        else stack + [".."];
      ReduceConcat(a[1..], b, rooted, next);
    }
  }

  /** Rendering normal elements and reading them again gives them back. */
  lemma RenderedElements(rooted: bool, elements: seq<string>)
    requires Normal(rooted, elements)
    ensures var path := Spell(rooted, elements);
            path != "" && Rooted(path) == rooted && Elements(path) == elements
  {
    NormalStays([], elements, rooted);
    assert [] + elements == elements;
    if elements == [] {
      RenderedRoot(rooted);
    } else {
      RenderedSome(rooted, elements);
    }
  }

  lemma RenderedRoot(rooted: bool)
    ensures var path := Spell(rooted, []);
            path != "" && Rooted(path) == rooted && Elements(path) == []
  {
    assert Split("", '/') == [""] && Split(".", '/') == ["."];
    SplitAt("", "", '/');
    assert "" + ['/'] + "" == ['/'] == "/" && ['/'] + "" == "/";
    assert Reduce(["", ""], true, []) == Reduce([""], true, []) by {
      assert ["", ""][1..] == [""];
    }
    assert [""] + [""] == ["", ""];
    assert ["."][1..] == [] && [""][1..] == [];
  }

  lemma RootedElements(rest: string)
    ensures Elements(['/'] + rest) == Reduce(Split(rest, '/'), true, [])
  {
    SplitAt("", rest, '/');
    assert "" + ['/'] + rest == ['/'] + rest;
    var parts := [""] + Split(rest, '/');
    assert parts[0] == "" && parts[1..] == Split(rest, '/');
  }

  lemma RenderedSome(rooted: bool, elements: seq<string>)
    requires Normal(rooted, elements) && elements != [] && Reduce(elements, rooted, []) == elements
    ensures var path := Spell(rooted, elements);
            path != "" && Rooted(path) == rooted && Elements(path) == elements
  {
    SplitJoin(elements, '/');
    RootedElements(Join(elements, '/'));
    JoinStart(elements);
  }

  lemma JoinStart(elements: seq<string>)
    requires elements != [] && elements[0] != ""
    ensures Join(elements, '/') != "" && Join(elements, '/')[0] == elements[0][0]
  {
  }

  lemma ElementsNormal(path: string)
    ensures Normal(Rooted(path), Elements(path))
  {
    ReduceNormal(Split(path, '/'), Rooted(path), []);
  }

  /** Cleaning changes nothing but the spelling of a path, and cleaning twice is cleaning once. */
  lemma CleanIdempotent(path: string)
    ensures Clean(Clean(path)) == Clean(path) && Clean(path) != ""
    ensures path != "" ==> Elements(Clean(path)) == Elements(path) && Rooted(Clean(path)) == Rooted(path)
  {
    if path == "" {
      RenderedElements(false, []);
    } else {
      ElementsNormal(path);
      RenderedElements(Rooted(path), Elements(path));
    }
  }

  /** Two paths clean to the same exactly when they have the same elements from the same start. */
  lemma CleanEqual(x: string, y: string)
    requires x != "" && y != ""
    ensures Clean(x) == Clean(y) <==> Rooted(x) == Rooted(y) && Elements(x) == Elements(y)
  {
    CleanIdempotent(x);
    CleanIdempotent(y);
  }

  // ---- The rules of cleaning ----

  /** Elements that leave the stack as it is may be left out. */
  lemma Dropped(a: seq<string>, mid: seq<string>, b: seq<string>, rooted: bool)
    requires Reduce(mid, rooted, Reduce(a, rooted, [])) == Reduce(a, rooted, [])
    ensures Reduce(a + (mid + b), rooted, []) == Reduce(a + b, rooted, [])
  {
    ReduceConcat(a, mid + b, rooted, []);
    ReduceConcat(mid, b, rooted, Reduce(a, rooted, []));
    ReduceConcat(a, b, rooted, []);
  }

  lemma DropPiece(x: string, mid: string, y: string, pieces: seq<string>)
    requires Split(mid, '/') == pieces
    requires Reduce(pieces, Rooted(x + ['/'] + y), Reduce(Split(x, '/'), Rooted(x + ['/'] + y), [])) == Reduce(Split(x, '/'), Rooted(x + ['/'] + y), [])
    ensures Clean(x + ['/'] + (mid + ['/'] + y)) == Clean(x + ['/'] + y)
  {
    var long, short := x + ['/'] + (mid + ['/'] + y), x + ['/'] + y;
    SplitConcat(x, mid + ['/'] + y, '/');
    SplitConcat(mid, y, '/');
    SplitConcat(x, y, '/');
    assert long != "" && short != "" && long[0] == short[0];
    hide Split, Reduce;
    Dropped(Split(x, '/'), pieces, Split(y, '/'), Rooted(short));
    assert Rooted(long) == Rooted(short);
    CleanEqual(long, short);
  }

  lemma SmallReduce(p: string, rooted: bool, stack: seq<string>)
    ensures Reduce([""], rooted, stack) == stack && Reduce(["."], rooted, stack) == stack
    ensures Segment(p) ==> Reduce([p, ".."], rooted, stack) == stack
  {
    assert [""][1..] == [] && ["."][1..] == [] && [p, ".."][1..] == [".."] && [".."][1..] == [];
    assert (stack + [p])[..|stack|] == stack;
    if Segment(p) {
      assert Reduce([".."], rooted, stack + [p]) == Reduce([], rooted, stack);
    }
  }

  /**
   Slashes count once, a `.` counts nothing, a `..` takes back the proper element before it, and at the root
   there is nothing to take back.
   */
  lemma CleanRules(x: string, name: string, y: string)
    requires Segment(name)
    ensures Clean(x + ['/'] + ("" + ['/'] + y)) == Clean(x + ['/'] + y)
    ensures Clean(x + ['/'] + ("." + ['/'] + y)) == Clean(x + ['/'] + y)
    ensures Clean(x + ['/'] + (name + ['/'] + ".." + ['/'] + y)) == Clean(x + ['/'] + y)
    ensures Clean("" + ['/'] + (".." + ['/'] + y)) == Clean("" + ['/'] + y)
  {
    var rooted := Rooted(x + ['/'] + y);
    SmallReduce(name, rooted, Reduce(Split(x, '/'), rooted, []));
    assert Split("", '/') == [""] && Split(".", '/') == ["."] && Split("..", '/') == [".."];
    SplitAt(name, "..", '/');
    RootUp();
    hide Split, Reduce, Clean;
    assert [name] + [".."] == [name, ".."];
    DropPiece(x, "", y, [""]);
    DropPiece(x, ".", y, ["."]);
    DropPiece(x, name + ['/'] + "..", y, [name, ".."]);
    assert Rooted("" + ['/'] + y);
    DropPiece("", "..", y, [".."]);
  }

  lemma RootUp()
    ensures Reduce(Split("", '/'), true, []) == [] && Reduce([".."], true, []) == []
  {
    assert Split("", '/') == [""] && [""][1..] == [] && [".."][1..] == [];
  }

  /** What else there is stays: a relative path keeps the `..` it begins with. */
  lemma CleanKeeps(rooted: bool, elements: seq<string>)
    requires Normal(rooted, elements)
    ensures Clean(Spell(rooted, elements)) == Spell(rooted, elements)
  {
    RenderedElements(rooted, elements);
  }

  /** `Base` looks past slashes at the end. */
  lemma BaseSlashes(path: string)
    ensures Base("") == "."
    ensures path != "" ==> Base(path + ['/']) == Base(path)
  {
    assert (path + ['/'])[..|path|] == path;
  }

  // ---- Descending into a directory ----

  /** A clean path that names a directory other than the root and the current one. */
  predicate Proper(path: string) {
    path != "" && Clean(path) == path && Elements(path) != []
  }

  /** The path of `segs` below `dir`. */
  function Under(dir: string, segs: seq<string>): string {
    dir + ['/'] + Join(segs, '/')
  }

  lemma {:induction false} JoinConcat(xs: seq<string>, ys: seq<string>)
    requires xs != [] && ys != []
    ensures Join(xs + ys, '/') == Join(xs, '/') + ['/'] + Join(ys, '/')
  {
    if |xs| == 1 {
      assert xs + ys == [xs[0]] + ys;
      JoinCons(xs[0], ys, '/');
    } else {
      assert xs + ys == [xs[0]] + (xs[1..] + ys);
      JoinCons(xs[0], xs[1..] + ys, '/');
      JoinConcat(xs[1..], ys);
    }
  }

  lemma UnderElements(dir: string, segs: seq<string>)
    requires dir != "" && segs != [] && forall s | s in segs :: Segment(s)
    ensures Elements(Under(dir, segs)) == Elements(dir) + segs && Rooted(Under(dir, segs)) == Rooted(dir)
  {
    SplitConcat(dir, Join(segs, '/'), '/');
    SplitJoin(segs, '/');
    ReduceConcat(Split(dir, '/'), segs, Rooted(dir), []);
    ElementsNormal(dir);
    NormalStays(Elements(dir), segs, Rooted(dir));
  }

  lemma SpellUnder(rooted: bool, elements: seq<string>, segs: seq<string>)
    requires elements != [] && segs != []
    ensures Spell(rooted, elements + segs) == Under(Spell(rooted, elements), segs)
  {
    JoinConcat(elements, segs);
    if rooted {
      assert ['/'] + (Join(elements, '/') + ['/'] + Join(segs, '/')) == (['/'] + Join(elements, '/')) + ['/'] + Join(segs, '/');
    }
  }

  /** Joining proper elements to a proper directory appends them, and nothing else. */
  lemma JoinUnder(dir: string, segs: seq<string>)
    requires Proper(dir) && segs != [] && forall s | s in segs :: Segment(s)
    ensures PathJoin([dir] + segs) == Under(dir, segs) && Proper(Under(dir, segs))
  {
    JoinCons(dir, segs, '/');
    UnderElements(dir, segs);
    SpellUnder(Rooted(dir), Elements(dir), segs);
  }

  lemma UnderInjective(dir: string, xs: seq<string>, ys: seq<string>)
    requires xs != [] && (forall s | s in xs :: Segment(s)) && ys != [] && (forall s | s in ys :: Segment(s))
    ensures Under(dir, xs) == Under(dir, ys) <==> xs == ys
  {
    if Under(dir, xs) == Under(dir, ys) {
      var n := |dir| + 1;
      assert Under(dir, xs)[n..] == Join(xs, '/') && Under(dir, ys)[n..] == Join(ys, '/');
      JoinInjective(xs, ys, '/');
    }
  }

  lemma UnderUnder(dir: string, xs: seq<string>, ys: seq<string>)
    requires xs != [] && ys != []
    ensures Under(Under(dir, xs), ys) == Under(dir, xs + ys)
  {
    JoinConcat(xs, ys);
    assert dir + ['/'] + (Join(xs, '/') + ['/'] + Join(ys, '/')) == (dir + ['/'] + Join(xs, '/')) + ['/'] + Join(ys, '/');
  }

  lemma TrailingSlash(dir: string)
    requires Proper(dir)
    ensures Clean(dir + ['/']) == dir
  {
    SplitConcat(dir, "", '/');
    assert dir + ['/'] + "" == dir + ['/'];
    assert Split("", '/') == [""];
    ReduceConcat(Split(dir, '/'), [""], Rooted(dir), []);
    assert Reduce([""], Rooted(dir), Elements(dir)) == Elements(dir) by {
      assert [""][1..] == [];
    }
  }

  lemma BaseAt(head: string, last: string)
    requires last != "" && '/' !in last
    ensures Base(head + ['/'] + last) == last
  {
    var path := head + ['/'] + last;
    assert path[|path| - 1] == last[|last| - 1];
    LastIndexOfAt(head, '/', last);
    assert path[|head| + 1..] == last;
  }

  lemma SlashAssociative(a: string, b: string, c: string)
    ensures a + ['/'] + (b + ['/'] + c) == (a + ['/'] + b) + ['/'] + c
  {
  }

  lemma LastPartAt(rest: string)
    requires '/' in rest
    ensures LastPart(rest) == rest[LastIndexOf(rest, '/') + 1..] && '/' !in LastPart(rest)
    ensures rest == rest[..LastIndexOf(rest, '/')] + ['/'] + LastPart(rest)
  {
  }

  lemma BaseTail(prefix: string, rest: string)
    requires rest != "" && rest[|rest| - 1] != '/'
    ensures Base(prefix + ['/'] + rest) == LastPart(rest) && LastPart(rest) != "" && '/' !in LastPart(rest)
    ensures LastPart(rest)[|LastPart(rest)| - 1] == rest[|rest| - 1]
  {
    if '/' in rest {
      LastPartAt(rest);
      BaseOfDeep(prefix, rest[..LastIndexOf(rest, '/')], LastPart(rest), rest);
    } else {
      BaseAt(prefix, rest);
    }
  }

  lemma BaseOfDeep(prefix: string, head: string, last: string, rest: string)
    requires rest == head + ['/'] + last && '/' !in last && rest[|rest| - 1] != '/'
    ensures Base(prefix + ['/'] + rest) == last && last != "" && last[|last| - 1] == rest[|rest| - 1]
  {
    SlashAssociative(prefix, head, last);
    BaseAt(prefix + ['/'] + head, last);
  }

  lemma LastPartTail(head: string, tail: string)
    requires '/' !in tail
    ensures LastPart(head + tail) == LastPart(head) + tail
  {
    if '/' in head {
      var i := LastIndexOf(head, '/');
      assert head + tail == head[..i] + ['/'] + (head[i + 1..] + tail);
      LastIndexOfAt(head[..i], '/', head[i + 1..] + tail);
    }
  }

  lemma LastPartEnds(path: string, ext: string)
    requires '/' !in ext && EndsWith(path, ext)
    ensures EndsWith(LastPart(path), ext)
  {
    var head := path[..|path| - |ext|];
    assert path == head + ext;
    LastPartTail(head, ext);
  }

  lemma ExtTail(head: string, ext: string)
    requires ext != "" && ext[0] == '.' && '.' !in ext[1..] && '/' !in ext
    ensures Ext(head + ext) == ext
  {
    LastPartTail(head, ext);
    var last := LastPart(head);
    assert last + ext == last + ['.'] + ext[1..];
    LastIndexOfAt(last, '.', ext[1..]);
    assert (last + ext)[|last|..] == ext;
  }

  lemma EndsTransitive(s: string, t: string, u: string)
    requires EndsWith(s, t) && EndsWith(t, u)
    ensures EndsWith(s, u)
  {
    assert s[|s| - |u|..] == s[|s| - |t|..][|t| - |u|..];
  }

  /** A path ends in its last element, and that in its extension. */
  lemma ExtEnds(path: string)
    ensures EndsWith(path, Ext(path))
  {
    var last := LastPart(path);
    assert EndsWith(path, last);
    assert EndsWith(last, Ext(path));
    hide *;
    EndsTransitive(path, last, Ext(path));
  }

  /** The extension is what a path ends in, if that has one dot only, in front. */
  lemma ExtExactly(path: string, ext: string)
    requires ext != "" && ext[0] == '.' && '.' !in ext[1..] && '/' !in ext
    ensures Ext(path) == ext <==> EndsWith(path, ext)
  {
    hide Ext;
    if EndsWith(path, ext) {
      assert path == path[..|path| - |ext|] + ext;
      ExtTail(path[..|path| - |ext|], ext);
    }
    if Ext(path) == ext {
      ExtEnds(path);
    }
  }

  /** `Dir` and `Base` take a joined path apart again. */
  lemma DirBase(dir: string, name: string)
    requires Proper(dir) && Segment(name)
    ensures Dir(dir + ['/'] + name) == dir && Base(dir + ['/'] + name) == name
  {
    var path := dir + ['/'] + name;
    LastIndexOfAt(dir, '/', name);
    assert path[..|dir| + 1] == dir + ['/'];
    TrailingSlash(dir);
    BaseAt(dir, name);
  }

  lemma JoinOne(dir: string, name: string)
    requires Proper(dir) && Segment(name)
    ensures PathJoin([dir, name]) == Under(dir, [name]) == dir + ['/'] + name && Proper(Under(dir, [name]))
  {
    JoinUnder(dir, [name]);
    assert [dir] + [name] == [dir, name];
  }

  lemma JoinTwo(dir: string, a: string, b: string)
    requires Proper(dir) && Segment(a) && Segment(b)
    ensures PathJoin([dir, a, b]) == Under(Under(dir, [a]), [b])
  {
    JoinUnder(dir, [a, b]);
    assert [dir] + [a, b] == [dir, a, b];
    UnderUnder(dir, [a], [b]);
    assert [a] + [b] == [a, b];
  }

  /** From one subdirectory up and down into another. */
  lemma Sibling(dir: string, from: string, to: string, name: string)
    requires Proper(dir) && Segment(from) && Segment(to) && Segment(name)
    ensures PathJoin([Dir(Under(dir, [from])), to, name]) == PathJoin([Under(dir, [to]), name])
    ensures Dir(PathJoin([Under(dir, [to]), name])) == Under(dir, [to])
  {
    JoinOne(dir, from);
    DirBase(dir, from);
    JoinOne(dir, to);
    JoinTwo(dir, to, name);
    JoinOne(Under(dir, [to]), name);
    DirBase(Under(dir, [to]), name);
  }

  /** A `..` takes back the element before it. */
  lemma UpReduce(e: seq<string>, front: seq<string>, gone: string, back: seq<string>, rooted: bool)
    requires Normal(rooted, e) && Segment(gone)
    requires (forall s | s in front :: Segment(s)) && forall s | s in back :: Segment(s)
    ensures Reduce(front + [gone, ".."] + back, rooted, e) == e + front + back
  {
    assert front + [gone, ".."] + back == (front + [gone]) + ([".."] + back);
    ReduceConcat(front + [gone], [".."] + back, rooted, e);
    NormalStays(e, front + [gone], rooted);
    assert e + (front + [gone]) == (e + front) + [gone];
    assert ([".."] + back)[1..] == back;
    assert ((e + front) + [gone])[..|e + front|] == e + front;
    NormalStays(e + front, back, rooted);
  }
}
