/**
 `--set` values (pkg/config/kubernetes.go): each raw value is split at commas, trimmed and filed
 under the operator, the cluster or etcd by its first dotted component.
 */
module KubernetesConfig {
  import opened Text

  const CONFIG_OPERATOR := "operator"
  const CONFIG_CLUSTER := "cluster"
  const CONFIG_ETCD := "etcd"

  datatype Category = Operator | ClusterCategory | Etcd

  datatype Item = Item(category: Category, value: string)

  /** The three output fields of a `SetValues`. */
  datatype Fields = Fields(operator: string, cluster: string, etcd: string) {
    function Get(c: Category): string {
      match c
      case Operator => operator
      case ClusterCategory => cluster
      case Etcd => etcd
    }
  }

  const FRESH := Fields("", "", "")

  // ---- Specification ----

  /** Where a trimmed item goes: a known prefix is cut off, anything else is kept whole for the cluster. */
  function Route(prefix: string, rest: string, value: string): Item {
    if prefix == CONFIG_OPERATOR then Item(Operator, rest)
    else if prefix == CONFIG_CLUSTER then Item(ClusterCategory, rest)
    else if prefix == CONFIG_ETCD then Item(Etcd, rest)
    else Item(ClusterCategory, value)
  }

  function File(value: string): Item {
    if '.' in value then
      var dot := IndexOf(value, '.');
      Route(value[..dot], value[dot + 1..], value)
    else
      Route(value, value, value)
  }

  function Classify(raw: string): Item {
    File(Trim(raw))
  }

  function ClassifyAll(parts: seq<string>): (items: seq<Item>)
    ensures |items| == |parts|
    ensures forall i | 0 <= i < |parts| :: items[i] == Classify(parts[i])
  {
    seq(|parts|, i requires 0 <= i < |parts| => Classify(parts[i]))
  }

  /** Every comma-separated item of every raw value, classified, in the order written. */
  function Items(raws: seq<string>): seq<Item> {
    if raws == [] then [] else ClassifyAll(Split(raws[0], ',')) + Items(raws[1..])
  }

  /** The values filed under `c`, in the order of their items. */
  function Select(c: Category, items: seq<Item>): seq<string> {
    if items == [] then []
    else (if items[0].category == c then [items[0].value] else []) + Select(c, items[1..])
  }

  function Field(c: Category, items: seq<Item>, before: string): string {
    if Select(c, items) == [] then before else Join(Select(c, items), ',')
  }

  function ParseFrom(raws: seq<string>, before: Fields): Result<Fields> {
    if "" in raws then Err("cannot parse empty config values")
    else
      var items := Items(raws);
      Ok(Fields(Field(Operator, items, before.operator),
                Field(ClusterCategory, items, before.cluster),
                Field(Etcd, items, before.etcd)))
  }

  // ---- The parser ----

  class SetValues {
    var rawConfig: seq<string>
    var operatorConfig: string
    var clusterConfig: string
    var etcdConfig: string

    constructor (raws: seq<string>)
      ensures rawConfig == raws && Outputs() == FRESH
    {
      rawConfig := raws;
      operatorConfig, clusterConfig, etcdConfig := "", "", "";
    }

    function Outputs(): Fields
      reads this
    {
      Fields(operatorConfig, clusterConfig, etcdConfig)
    }

    /** The inner loop: files the trimmed items of one raw value. */
    static method FileValues(values: seq<string>, operators0: seq<string>, clusters0: seq<string>, etcds0: seq<string>,
                             ghost base: seq<Item>)
      returns (operators: seq<string>, clusters: seq<string>, etcds: seq<string>)
      requires Sorted(operators0, clusters0, etcds0, base)
      ensures Sorted(operators, clusters, etcds, base + ClassifyAll(values))
    {
      hide Sorted, ClassifyAll, Trim, Route, Classify;
      operators, clusters, etcds := operators0, clusters0, etcds0;
      ghost var done := base;
      NothingClassified(base, values);
      var i := 0;
      while i < |values|
        invariant 0 <= i <= |values|
        invariant done == base + ClassifyAll(values[..i])
        invariant Sorted(operators, clusters, etcds, done)
      {
        var value := Trim(values[i]);
        var prefix, rest := value, value;
        if '.' in value {
          var dot := IndexOf(value, '.');
          prefix, rest := value[..dot], value[dot + 1..];
        }
        ghost var item := Route(prefix, rest, value);
        RoutedItem(values[i], prefix, rest);
        FileRouted(operators, clusters, etcds, done, prefix, rest, value);
        ClassifySnoc(base, values, i, done);
        done := done + [item];
        if prefix == CONFIG_OPERATOR {
          operators := operators + [rest];
        } else if prefix == CONFIG_CLUSTER {
          clusters := clusters + [rest];
        } else if prefix == CONFIG_ETCD {
          etcds := etcds + [rest];
        } else {
          clusters := clusters + [value];
        }
        i := i + 1;
      }
      assert values[..i] == values;
    }

    method Parse() returns (r: Result<Fields>)
      modifies this
      ensures rawConfig == old(rawConfig)
      ensures r == ParseFrom(rawConfig, old(Outputs()))
      ensures r.Err? <==> "" in rawConfig
      ensures Outputs() == if r.Ok? then r.value else old(Outputs())
    {
      NothingSorted(rawConfig);
      hide Sorted, Items, ClassifyAll, Split;
      var operators: seq<string>, clusters: seq<string>, etcds: seq<string> := [], [], [];
      ghost var done: seq<Item> := [];
      var n := 0;
      while n < |rawConfig|
        invariant 0 <= n <= |rawConfig| && "" !in rawConfig[..n]
        invariant rawConfig == old(rawConfig) && Outputs() == old(Outputs())
        invariant done == Items(rawConfig[..n])
        invariant Sorted(operators, clusters, etcds, done)
      {
        var raw := rawConfig[n];
        if |raw| == 0 {
          return Err("cannot parse empty config values");
        }
        operators, clusters, etcds := FileValues(Split(raw, ','), operators, clusters, etcds, done);
        done := done + ClassifyAll(Split(raw, ','));
        ItemsSnoc(rawConfig, n);
        n := n + 1;
      }
      assert rawConfig[..n] == rawConfig;
      ParseOk(rawConfig, Outputs(), operators, clusters, etcds);
      if |operators| > 0 {
        operatorConfig := Join(operators, ',');
      }
      if |clusters| > 0 {
        clusterConfig := Join(clusters, ',');
      }
      if |etcds| > 0 {
        etcdConfig := Join(etcds, ',');
      }
      r := Ok(Outputs());
    }
  }

  ghost predicate Sorted(operators: seq<string>, clusters: seq<string>, etcds: seq<string>, items: seq<Item>) {
    && operators == Select(Operator, items)
    && clusters == Select(ClusterCategory, items)
    && etcds == Select(Etcd, items)
  }

  lemma NothingSorted(raws: seq<string>)
    ensures Sorted([], [], [], []) && Items(raws[..0]) == []
  {
  }

  lemma ParseOk(raws: seq<string>, before: Fields, operators: seq<string>, clusters: seq<string>, etcds: seq<string>)
    requires "" !in raws && Sorted(operators, clusters, etcds, Items(raws))
    ensures ParseFrom(raws, before)
         == Ok(Fields(if operators == [] then before.operator else Join(operators, ','),
                      if clusters == [] then before.cluster else Join(clusters, ','),
                      if etcds == [] then before.etcd else Join(etcds, ',')))
  {
  }

  lemma FileOne(operators: seq<string>, clusters: seq<string>, etcds: seq<string>, items: seq<Item>, x: Item)
    requires Sorted(operators, clusters, etcds, items)
    ensures Sorted(operators + if x.category == Operator then [x.value] else [],
                   clusters + if x.category == ClusterCategory then [x.value] else [],
                   etcds + if x.category == Etcd then [x.value] else [], items + [x])
  {
    SelectOne(Operator, items, x);
    SelectOne(ClusterCategory, items, x);
    SelectOne(Etcd, items, x);
  }

  lemma NothingClassified(base: seq<Item>, values: seq<string>)
    ensures base == base + ClassifyAll(values[..0])
  {
  }

  /** The parts the loop takes a trimmed item into route it as specified. */
  lemma RoutedItem(raw: string, prefix: string, rest: string)
    requires var value := Trim(raw);
             if '.' in value then prefix == value[..IndexOf(value, '.')] && rest == value[IndexOf(value, '.') + 1..]
             else prefix == value && rest == value
    ensures Route(prefix, rest, Trim(raw)) == Classify(raw)
  {
  }

  lemma FileRouted(operators: seq<string>, clusters: seq<string>, etcds: seq<string>, items: seq<Item>,
                   prefix: string, rest: string, value: string)
    requires Sorted(operators, clusters, etcds, items)
    ensures var more := items + [Route(prefix, rest, value)];
            if prefix == CONFIG_OPERATOR then Sorted(operators + [rest], clusters, etcds, more)
            else if prefix == CONFIG_CLUSTER then Sorted(operators, clusters + [rest], etcds, more)
            else if prefix == CONFIG_ETCD then Sorted(operators, clusters, etcds + [rest], more)
            else Sorted(operators, clusters + [value], etcds, more)
  {
    hide Sorted;
    FileOne(operators, clusters, etcds, items, Route(prefix, rest, value));
    assert operators + [] == operators && clusters + [] == clusters && etcds + [] == etcds;
  }

  lemma ClassifySnoc(base: seq<Item>, values: seq<string>, i: nat, done: seq<Item>)
    requires i < |values| && done == base + ClassifyAll(values[..i])
    ensures done + [Classify(values[i])] == base + ClassifyAll(values[..i + 1])
  {
    assert ClassifyAll(values[..i + 1]) == ClassifyAll(values[..i]) + [Classify(values[i])];
  }

  lemma ItemsSnoc(raws: seq<string>, n: nat)
    requires n < |raws|
    ensures Items(raws[..n + 1]) == Items(raws[..n]) + ClassifyAll(Split(raws[n], ','))
  {
    assert raws[..n + 1] == raws[..n] + [raws[n]];
    ItemsConcat(raws[..n], [raws[n]]);
    ItemsSingle(raws[n]);
  }

  lemma {:induction false} SelectConcat(c: Category, xs: seq<Item>, ys: seq<Item>)
    ensures Select(c, xs + ys) == Select(c, xs) + Select(c, ys)
  {
    if xs == [] {
      assert xs + ys == ys;
    } else {
      assert (xs + ys)[1..] == xs[1..] + ys;
      SelectConcat(c, xs[1..], ys);
    }
  }

  lemma SelectOne(c: Category, xs: seq<Item>, x: Item)
    ensures Select(c, xs + [x]) == Select(c, xs) + if x.category == c then [x.value] else []
  {
    SelectConcat(c, xs, [x]);
    assert Select(c, [x][1..]) == [];
  }

  lemma {:induction false} ItemsConcat(xs: seq<string>, ys: seq<string>)
    ensures Items(xs + ys) == Items(xs) + Items(ys)
  {
    if xs == [] {
      assert xs + ys == ys;
    } else {
      assert (xs + ys)[1..] == xs[1..] + ys;
      ItemsConcat(xs[1..], ys);
    }
  }

  // ---- Chunking ----

  lemma ItemsReplace(pre: seq<string>, xs: seq<string>, ys: seq<string>, post: seq<string>)
    requires Items(xs) == Items(ys)
    ensures Items(pre + xs + post) == Items(pre + ys + post)
  {
    ItemsConcat(pre + xs, post);
    ItemsConcat(pre, xs);
    ItemsConcat(pre + ys, post);
    ItemsConcat(pre, ys);
  }

  lemma ItemsSingle(raw: string)
    ensures Items([raw]) == ClassifyAll(Split(raw, ','))
  {
    assert Items([raw][1..]) == [];
  }

  lemma ClassifyConcat(xs: seq<string>, ys: seq<string>)
    ensures ClassifyAll(xs + ys) == ClassifyAll(xs) + ClassifyAll(ys)
  {
  }

  lemma ChunkPair(r1: string, r2: string)
    ensures Items([r1, r2]) == Items([r1 + [','] + r2])
  {
    SplitConcat(r1, r2, ',');
    ClassifyConcat(Split(r1, ','), Split(r2, ','));
    ItemsSingle(r1);
    ItemsSingle(r2);
    ItemsSingle(r1 + [','] + r2);
    ItemsConcat([r1], [r2]);
    assert [r1] + [r2] == [r1, r2];
  }

  /**
   Giving two raw values separately or joined by a comma is the same to the parser exactly when
   neither is empty, or some other raw value already makes both runs fail.
   */
  lemma ChunkingInvariance(pre: seq<string>, r1: string, r2: string, post: seq<string>, before: Fields)
    ensures ParseFrom(pre + [r1, r2] + post, before) == ParseFrom(pre + [r1 + [','] + r2] + post, before)
       <==> (r1 != "" && r2 != "") || "" in pre || "" in post
  {
    ChunkPair(r1, r2);
    ItemsReplace(pre, [r1, r2], [r1 + [','] + r2], post);
    var split, joined := pre + [r1, r2] + post, pre + [r1 + [','] + r2] + post;
    assert split[|pre|] == r1 && split[|pre| + 1] == r2;
    assert "" in split <==> "" in pre || r1 == "" || r2 == "" || "" in post;
    assert "" in joined <==> "" in pre || "" in post;
  }

  // ---- Spaces ----

  /** Spaces on either side of an item do not matter; without spaces at its ends it is filed as it stands. */
  lemma ClassifyPadded(a: string, item: string, b: string)
    requires Spaces(a) && Spaces(b)
    ensures Classify(a + item + b) == Classify(item)
    ensures Trimmed(item) ==> Classify(a + item + b) == File(item)
  {
    var x, y := TrimParts(item);
    var m := Trim(item);
    assert a + item + b == (a + x) + m + (y + b);
    TrimExactly(a + x, m, y + b);
    if Trimmed(item) {
      assert "" + item + "" == item;
      TrimExactly("", item, "");
    }
  }

  /** `padded` holds the items of `parts` with spaces around them. */
  ghost predicate Padded(parts: seq<string>, padded: seq<string>) {
    && |parts| == |padded|
    && forall i | 0 <= i < |parts| ::
         ',' !in parts[i] && exists a, b :: Spaces(a) && Spaces(b) && padded[i] == a + parts[i] + b
  }

  lemma PaddedAlike(parts: seq<string>, padded: seq<string>)
    requires Padded(parts, padded)
    ensures ClassifyAll(parts) == ClassifyAll(padded) && forall p | p in padded :: ',' !in p
  {
    forall i | 0 <= i < |parts| ensures Classify(parts[i]) == Classify(padded[i]) && ',' !in padded[i] {
      var a, b :| Spaces(a) && Spaces(b) && padded[i] == a + parts[i] + b;
      ClassifyPadded(a, parts[i], b);
    }
    assert forall i | 0 <= i < |parts| :: ClassifyAll(parts)[i] == ClassifyAll(padded)[i];
  }

  /**
   Spaces around the commas of a raw value change nothing, unless they alone make it non-empty: an empty
   raw value is an error, one of spaces is not.
   */
  lemma SpacesAroundCommas(pre: seq<string>, parts: seq<string>, padded: seq<string>, post: seq<string>, before: Fields)
    requires parts != [] && Padded(parts, padded)
    ensures ParseFrom(pre + [Join(parts, ',')] + post, before) == ParseFrom(pre + [Join(padded, ',')] + post, before)
       <==> (Join(parts, ',') == "" <==> Join(padded, ',') == "") || "" in pre || "" in post
  {
    var plain, spaced := Join(parts, ','), Join(padded, ',');
    PaddedAlike(parts, padded);
    SplitJoin(parts, ',');
    SplitJoin(padded, ',');
    ItemsSingle(plain);
    ItemsSingle(spaced);
    hide ClassifyAll, Items, Split, Join;
    ItemsReplace(pre, [plain], [spaced], post);
    EmptyIn(pre, plain, post);
    EmptyIn(pre, spaced, post);
  }

  lemma EmptyIn(pre: seq<string>, raw: string, post: seq<string>)
    ensures "" in pre + [raw] + post <==> "" in pre || raw == "" || "" in post
  {
    assert (pre + [raw] + post)[|pre|] == raw;
  }

  // ---- The fields ----

  /** A field without items keeps its value; any other becomes the list of its items, which splitting gives back. */
  lemma FieldsExactly(raws: seq<string>, before: Fields, f: Fields, c: Category)
    requires ParseFrom(raws, before) == Ok(f)
    ensures Select(c, Items(raws)) == [] ==> f.Get(c) == before.Get(c)
    ensures Select(c, Items(raws)) != [] ==> Split(f.Get(c), ',') == Select(c, Items(raws))
  {
    ItemsClean(raws);
    SelectClean(c, Items(raws));
    if Select(c, Items(raws)) != [] {
      SplitJoin(Select(c, Items(raws)), ',');
    }
  }

  // ---- Conservation ----

  /** How many of the first `i` items belong to `c`. */
  function Earlier(c: Category, items: seq<Item>, i: nat): nat
    requires i <= |items|
  {
    if i == 0 then 0
    else (if items[0].category == c then 1 else 0) + Earlier(c, items[1..], i - 1)
  }

  /**
   Each item is filed exactly once: item `i` stands in its own category's list, at the position that
   counts the earlier items of that category, and the three lists have no other entries.
   */
  lemma ItemFiledOnce(raws: seq<string>, i: nat)
    requires i < |Items(raws)|
    ensures var items := Items(raws);
            var c := items[i].category;
            && Earlier(c, items, i) < |Select(c, items)|
            && Select(c, items)[Earlier(c, items, i)] == items[i].value
            && |Select(Operator, items)| + |Select(ClusterCategory, items)| + |Select(Etcd, items)| == |items|
  {
    SelectAt(Items(raws), i);
    SelectCounts(Items(raws));
  }

  lemma {:induction false} SelectAt(items: seq<Item>, i: nat)
    requires i < |items|
    ensures var c := items[i].category;
            && Earlier(c, items, i) < |Select(c, items)|
            && Select(c, items)[Earlier(c, items, i)] == items[i].value
  {
    if i > 0 {
      SelectAt(items[1..], i - 1);
    }
  }

  lemma {:induction false} SelectCounts(items: seq<Item>)
    ensures |Select(Operator, items)| + |Select(ClusterCategory, items)| + |Select(Etcd, items)| == |items|
  {
    if items != [] {
      SelectCounts(items[1..]);
    }
  }

  // ---- Print and parse again ----

  function Name(c: Category): (n: string)
    ensures n != "" && ',' !in n && '.' !in n && n[0] != ' '
  {
    match c
    case Operator => CONFIG_OPERATOR
    case ClusterCategory => CONFIG_CLUSTER
    case Etcd => CONFIG_ETCD
  }

  function Prefix(c: Category): string {
    Name(c) + ['.']
  }

  function PrintItems(c: Category, values: seq<string>): seq<string> {
    seq(|values|, i requires 0 <= i < |values| => Prefix(c) + values[i])
  }

  function PrintField(f: Fields, c: Category): seq<string> {
    PrintItems(c, Split(f.Get(c), ','))
  }

  /** One raw value per item of each field, written with its category's prefix. */
  function Print(f: Fields): seq<string> {
    PrintField(f, Operator) + PrintField(f, ClusterCategory) + PrintField(f, Etcd)
  }

  predicate NoTrailingSpace(s: string) {
    s == "" || s[|s| - 1] != ' '
  }

  ghost predicate Printable(f: Fields) {
    AllClean(Split(f.operator, ',')) && AllClean(Split(f.cluster, ',')) && AllClean(Split(f.etcd, ','))
  }

  lemma FileNamed(c: Category, rest: string)
    ensures File(Prefix(c) + rest) == Item(c, rest)
  {
    var name := Name(c);
    var text := name + ['.'] + rest;
    IndexOfAt(name, '.', rest);
    assert text[|name|] == '.' && text[..|name|] == name && text[|name| + 1..] == rest;
    CategoryNamesDiffer();
  }

  /** A trimmed item that names no category, alone or before its first dot, is kept whole for the cluster. */
  lemma FileOther(value: string)
    requires forall c: Category :: value != Name(c) && !(Prefix(c) <= value)
    ensures File(value) == Item(ClusterCategory, value)
  {
    if '.' in value {
      var dot := IndexOf(value, '.');
      assert value[..dot + 1] == value[..dot] + ['.'];
      assert value[..dot + 1] <= value;
    }
    assert value != Name(Operator) && value != Name(ClusterCategory) && value != Name(Etcd);
    assert !(Prefix(Operator) <= value) && !(Prefix(ClusterCategory) <= value) && !(Prefix(Etcd) <= value);
  }

  lemma FileBare(c: Category)
    ensures File(Name(c)) == Item(c, Name(c))
  {
    CategoryNamesDiffer();
  }

  /** Where a trimmed item is filed: as the bare name of a category, behind one as a prefix, or whole for the cluster. */
  lemma FileExactly(value: string, item: Item)
    ensures File(value) == item
       <==> || (exists c :: value == Name(c) && item == Item(c, value))
            || (exists c, rest :: value == Prefix(c) + rest && item == Item(c, rest))
            || ((forall c: Category :: value != Name(c) && !(Prefix(c) <= value)) && item == Item(ClusterCategory, value))
  {
    if c: Category :| value == Name(c) {
      FileBare(c);
      NotPrefixed(value, c);
    } else if c: Category :| Prefix(c) <= value {
      var rest := value[|Prefix(c)|..];
      assert value == Prefix(c) + rest;
      FileNamed(c, rest);
      forall d: Category, more | value == Prefix(d) + more ensures d == c && more == rest {
        FileNamed(d, more);
      }
    } else {
      FileOther(value);
      assert forall c: Category, rest: string :: Prefix(c) <= Prefix(c) + rest;
    }
  }

  lemma NotPrefixed(value: string, c: Category)
    requires value == Name(c)
    ensures forall d: Category, rest: string :: value != Prefix(d) + rest
    ensures forall d: Category | value == Name(d) :: d == c
  {
    forall d: Category, rest: string ensures value != Prefix(d) + rest {
      assert (Prefix(d) + rest)[|Name(d)|] == '.';
    }
    CategoryNamesDiffer();
  }

  lemma ClassifyPrinted(c: Category, value: string)
    ensures Classify(Prefix(c) + value) == Item(c, TrimRight(value))
  {
    TrimRightAppend(Prefix(c), value);
    assert TrimLeft(Prefix(c) + value) == Prefix(c) + value;
    FileNamed(c, TrimRight(value));
  }

  lemma CategoryNamesDiffer()
    ensures CONFIG_OPERATOR != CONFIG_CLUSTER && CONFIG_OPERATOR != CONFIG_ETCD && CONFIG_CLUSTER != CONFIG_ETCD
  {
    assert CONFIG_OPERATOR[0] == 'o' && CONFIG_CLUSTER[0] == 'c' && CONFIG_ETCD[0] == 'e';
  }

  function TrimAll(values: seq<string>): (r: seq<string>)
    ensures |r| == |values| && forall i | 0 <= i < |values| :: r[i] == TrimRight(values[i])
  {
    seq(|values|, i requires 0 <= i < |values| => TrimRight(values[i]))
  }

  lemma {:induction false} ItemsPrinted(c: Category, values: seq<string>)
    requires forall v | v in values :: ',' !in v
    ensures |Items(PrintItems(c, values))| == |values|
    ensures forall i | 0 <= i < |values| :: Items(PrintItems(c, values))[i] == Item(c, TrimRight(values[i]))
  {
    if values != [] {
      var printed := PrintItems(c, values);
      assert printed[1..] == PrintItems(c, values[1..]);
      ItemsPrinted(c, values[1..]);
      ClassifyPrinted(c, values[0]);
      assert Split(printed[0], ',') == [printed[0]];
    }
  }

  lemma {:induction false} SelectUniform(c: Category, d: Category, items: seq<Item>, values: seq<string>)
    requires |items| == |values|
    requires forall i | 0 <= i < |items| :: items[i] == Item(c, values[i])
    ensures Select(d, items) == if c == d then values else []
  {
    if items != [] {
      SelectUniform(c, d, items[1..], values[1..]);
    }
  }

  lemma SelectPrintedField(f: Fields, c: Category, d: Category)
    ensures Select(d, Items(PrintField(f, c))) == if c == d then TrimAll(Split(f.Get(c), ',')) else []
  {
    var values := Split(f.Get(c), ',');
    ItemsPrinted(c, values);
    SelectUniform(c, d, Items(PrintItems(c, values)), TrimAll(values));
  }

  lemma SelectTwo(c: Category, xs: seq<string>, ys: seq<string>)
    ensures Select(c, Items(xs + ys)) == Select(c, Items(xs)) + Select(c, Items(ys))
  {
    hide Select, Items;
    ItemsConcat(xs, ys);
    SelectConcat(c, Items(xs), Items(ys));
  }

  lemma SelectThree(c: Category, xs: seq<string>, ys: seq<string>, zs: seq<string>)
    ensures Select(c, Items(xs + ys + zs)) == Select(c, Items(xs)) + Select(c, Items(ys)) + Select(c, Items(zs))
  {
    hide Select, Items;
    SelectTwo(c, xs + ys, zs);
    SelectTwo(c, xs, ys);
  }

  lemma SelectPrinted(f: Fields, c: Category)
    ensures Select(c, Items(Print(f))) == TrimAll(Split(f.Get(c), ','))
  {
    hide Select, Items, TrimAll, Split, PrintField;
    SelectThree(c, PrintField(f, Operator), PrintField(f, ClusterCategory), PrintField(f, Etcd));
    SelectPrintedField(f, Operator, c);
    SelectPrintedField(f, ClusterCategory, c);
    SelectPrintedField(f, Etcd, c);
  }

  ghost predicate AllClean(items: seq<string>) {
    forall i | 0 <= i < |items| :: NoTrailingSpace(items[i])
  }

  lemma TrimAllFixed(items: seq<string>)
    ensures TrimAll(items) == items <==> AllClean(items)
  {
    assert TrimAll(items) == items ==> forall i | 0 <= i < |items| :: TrimAll(items)[i] == items[i];
  }

  lemma TrimAllNoComma(items: seq<string>)
    requires forall t | t in items :: ',' !in t
    ensures forall t | t in TrimAll(items) :: ',' !in t
  {
    forall t | t in TrimAll(items) ensures ',' !in t {
      var i :| 0 <= i < |items| && t == TrimRight(items[i]);
      assert items[i] in items;
    }
  }

  lemma JoinTrimmed(s: string)
    ensures Join(TrimAll(Split(s, ',')), ',') == s <==> AllClean(Split(s, ','))
  {
    var items := Split(s, ',');
    JoinSplit(s, ',');
    TrimAllFixed(items);
    TrimAllNoComma(items);
    if Join(TrimAll(items), ',') == Join(items, ',') {
      JoinInjective(TrimAll(items), items, ',');
    }
  }

  lemma FieldPrinted(f: Fields, c: Category)
    ensures Field(c, Items(Print(f)), "") == f.Get(c) <==> AllClean(Split(f.Get(c), ','))
  {
    SelectPrinted(f, c);
    JoinTrimmed(f.Get(c));
  }

  lemma PrintedNonEmpty(f: Fields)
    ensures "" !in Print(f)
  {
    assert forall c: Category, v: string :: Prefix(c) + v != "";
  }

  /** Printing three fields and parsing them from scratch gives them back, exactly when no item ends in a space. */
  lemma PrintParse(f: Fields)
    ensures ParseFrom(Print(f), FRESH) == Ok(f) <==> Printable(f)
  {
    FieldPrinted(f, Operator);
    FieldPrinted(f, ClusterCategory);
    FieldPrinted(f, Etcd);
    PrintedNonEmpty(f);
  }

  lemma FileClean(value: string)
    requires ',' !in value && NoTrailingSpace(value)
    ensures ',' !in File(value).value && NoTrailingSpace(File(value).value)
  {
  }

  lemma ClassifiedClean(raw: string)
    requires ',' !in raw
    ensures ',' !in Classify(raw).value && NoTrailingSpace(Classify(raw).value)
  {
    TrimLeftSuffix(raw);
    FileClean(Trim(raw));
  }

  lemma {:induction false} TrimLeftSuffix(s: string)
    ensures |TrimLeft(s)| <= |s| && TrimLeft(s) == s[|s| - |TrimLeft(s)|..]
  {
    if s != "" && s[0] == ' ' {
      TrimLeftSuffix(s[1..]);
    }
  }

  lemma {:induction false} ItemsClean(raws: seq<string>)
    ensures forall x | x in Items(raws) :: ',' !in x.value && NoTrailingSpace(x.value)
  {
    if raws != [] {
      forall x | x in ClassifyAll(Split(raws[0], ',')) ensures ',' !in x.value && NoTrailingSpace(x.value) {
        var i :| 0 <= i < |Split(raws[0], ',')| && x == Classify(Split(raws[0], ',')[i]);
        ClassifiedClean(Split(raws[0], ',')[i]);
      }
      ItemsClean(raws[1..]);
    }
  }

  lemma {:induction false} SelectClean(c: Category, items: seq<Item>)
    requires forall x | x in items :: ',' !in x.value && NoTrailingSpace(x.value)
    ensures forall v | v in Select(c, items) :: ',' !in v && NoTrailingSpace(v)
  {
    if items != [] {
      SelectClean(c, items[1..]);
    }
  }

  lemma FieldClean(c: Category, raws: seq<string>)
    ensures AllClean(Split(Field(c, Items(raws), ""), ','))
  {
    ItemsClean(raws);
    var values := Select(c, Items(raws));
    SelectClean(c, Items(raws));
    if values != [] {
      SplitJoin(values, ',');
    }
  }

  /** Whatever a fresh parse produced is reproduced by printing it and parsing again. */
  lemma ParsePrintParse(raws: seq<string>, f: Fields)
    requires ParseFrom(raws, FRESH) == Ok(f)
    ensures ParseFrom(Print(f), FRESH) == Ok(f)
  {
    FieldClean(Operator, raws);
    FieldClean(ClusterCategory, raws);
    FieldClean(Etcd, raws);
    PrintParse(f);
  }
}
