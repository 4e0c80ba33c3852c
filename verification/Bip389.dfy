/** Parsing the derivation steps after a key, with at most one multipath step (BIP 389). */
module Bip389 {
  import opened Wrappers
  import opened Text

  datatype Child = Normal(index: nat) | Hardened(index: nat)

  type Path = seq<Child>

  datatype Wildcard = NoWildcard | Unhardened | HardenedWildcard

  datatype ParseError =
    | WildcardNotLast
    | SecondMultipath
    | InvalidMultiStep
    | InvalidMultiIndex
    | InvalidIndex

  const INDEX_LIMIT: nat := 0x8000_0000

  // ---------------------------------------------------------------- one step

  /** `ChildNumber::from_str`: an index below 2^31, hardened by a final `'` or `h`. */
  function ParseChild(s: string): Option<Child> {
    if |s| > 0 && (s[|s| - 1] == '\'' || s[|s| - 1] == 'h') then
      match ParseU32(s[..|s| - 1])
      case Some(i) => if i < INDEX_LIMIT then Some(Hardened(i)) else None
      case None => None
    else
      match ParseU32(s)
      case Some(i) => if i < INDEX_LIMIT then Some(Normal(i)) else None
      case None => None
  }

  function ParseChildren(parts: seq<string>): Option<seq<Child>> {
    if parts == [] then Some([])
    else
      match (ParseChild(parts[0]), ParseChildren(parts[1..]))
      case (Some(c), Some(cs)) => Some([c] + cs)
      case _ => None
  }

  predicate IsMultiStep(p: string) {
    |p| > 1 && p[0] == '<' && p[|p| - 1] == '>'
  }

  /** The alternatives of a multipath step. */
  function ParseMulti(p: string): Result<seq<Child>, ParseError>
    requires IsMultiStep(p)
  {
    if |p| < 5 || ';' !in p then Err(InvalidMultiStep)
    else
      match ParseChildren(Split(p[1..|p| - 1], ';'))
      case Some(cs) => Ok(cs)
      case None => Err(InvalidMultiIndex)
  }

  function ParseSingle(p: string): Result<seq<Child>, ParseError> {
    match ParseChild(p)
    case Some(c) => Ok([c])
    case None => Err(InvalidIndex)
  }

  /** The alternatives of a step that is not a wildcard; only one may be a multipath step. */
  function NextList(p: string, multipath: bool): Result<seq<Child>, ParseError> {
    if IsMultiStep(p) then (if multipath then Err(SecondMultipath) else ParseMulti(p)) else ParseSingle(p)
  }

  predicate IsHardenedStar(p: string) {
    p == "*'" || p == "*h"
  }

  // ---------------------------------------------------------------- all steps

  type Steps = (seq<seq<Child>>, Wildcard)

  function Prepend(lists: seq<seq<Child>>, r: Result<Steps, ParseError>): Result<Steps, ParseError> {
    match r
    case Ok((rest, w)) => Ok((lists + rest, w))
    case Err(e) => Err(e)
  }

  /** The steps of the remaining parts, given what was seen before them. */
  function Collect(parts: seq<string>, wildcard: Wildcard, multipath: bool): Result<Steps, ParseError> {
    if parts == [] then Ok(([], wildcard))
    else
      var p := parts[0];
      if wildcard.NoWildcard? && p == "*" then Collect(parts[1..], Unhardened, multipath)
      else if wildcard.NoWildcard? && IsHardenedStar(p) then Collect(parts[1..], HardenedWildcard, multipath)
      else if !wildcard.NoWildcard? then Err(WildcardNotLast)
      else
        match NextList(p, multipath)
        case Ok(cs) => Prepend([cs], Collect(parts[1..], wildcard, multipath || IsMultiStep(p)))
        case Err(e) => Err(e)
  }

  /** Every path of `ps` extended by `c`. */
  function AppendAll(ps: seq<Path>, c: Child): seq<Path> {
    seq(|ps|, i requires 0 <= i < |ps| => ps[i] + [c])
  }

  function Cross(ps: seq<Path>, list: seq<Child>): seq<Path> {
    if list == [] then [] else AppendAll(ps, list[0]) + Cross(ps, list[1..])
  }

  /** All ways to choose one alternative per step. */
  function Product(lists: seq<seq<Child>>): seq<Path> {
    if lists == [] then [[]] else Cross(Product(lists[..|lists| - 1]), lists[|lists| - 1])
  }

  /** The product of the steps, or no path at all when there are no steps. */
  function Meaning(r: Result<Steps, ParseError>): Result<(seq<Path>, Wildcard), ParseError> {
    match r
    case Ok((lists, w)) => Ok((if lists == [] then [] else Product(lists), w))
    case Err(e) => Err(e)
  }

  function Parse(s: string): Result<(seq<Path>, Wildcard), ParseError> {
    Meaning(Collect(Split(Replace(s, "**", "<0;1>/*"), '/'), NoWildcard, false))
  }

  // ---------------------------------------------------------------- the in-place fold

  /** One iteration of the fold: every path takes the first alternative; for each further one the
      first path is copied, and the last index of the path at that position is overwritten. */
  method PushStep(paths: seq<Path>, list: seq<Child>) returns (out: seq<Path>)
    requires |list| > 0
    ensures out == FoldStep(paths, list)
  {
    out := paths;
    var first := list[0];
    if out == [] {
      out := [[first]];
    } else {
      for j := 0 to |out|
        invariant |out| == |paths|
        invariant forall k | 0 <= k < |out| :: out[k] == if k < j then paths[k] + [first] else paths[k]
      {
        out := out[j := out[j] + [first]];
      }
    }
    ghost var n := |out|;
    for i := 0 to |list| - 1
      invariant |out| == n + i
      invariant forall k | 0 <= k < |out| ::
                  out[k] == Stem(paths, k) + [if 1 <= k <= i then list[k] else first]
    {
      out := out + [out[0]];
      var path := out[i + 1];
      out := out[i + 1 := path[|path| - 1 := list[i + 1]]];
    }
  }

  /** The path that position `k` continues: its own, or a copy of the first. */
  function Stem(paths: seq<Path>, k: nat): Path {
    if paths == [] then [] else if k < |paths| then paths[k] else paths[0]
  }

  function FoldStep(paths: seq<Path>, list: seq<Child>): seq<Path>
    requires |list| > 0
  {
    seq((if paths == [] then 1 else |paths|) + |list| - 1,
        k requires 0 <= k => Stem(paths, k) + [if 1 <= k < |list| then list[k] else list[0]])
  }

  predicate AllNonempty(lists: seq<seq<Child>>) {
    forall l | l in lists :: |l| > 0
  }

  function FoldAll(lists: seq<seq<Child>>): seq<Path>
    requires AllNonempty(lists)
  {
    if lists == [] then [] else FoldStep(FoldAll(lists[..|lists| - 1]), lists[|lists| - 1])
  }

  predicate AtMostOneMulti(lists: seq<seq<Child>>) {
    forall i, j | 0 <= i < j < |lists| :: |lists[i]| == 1 || |lists[j]| == 1
  }

  predicate AllSingle(lists: seq<seq<Child>>) {
    forall l | l in lists :: |l| == 1
  }

  lemma {:induction false} CrossLength(ps: seq<Path>, list: seq<Child>)
    ensures |Cross(ps, list)| == |ps| * |list|
  {
    if list != [] { CrossLength(ps, list[1..]); }
  }

  lemma {:induction false} CrossOne(p: Path, list: seq<Child>)
    ensures Cross([p], list) == seq(|list|, j requires 0 <= j < |list| => p + [list[j]])
  {
    if list != [] { CrossOne(p, list[1..]); }
  }

  lemma {:induction false} SinglesMakeOnePath(lists: seq<seq<Child>>)
    requires AllSingle(lists)
    ensures |Product(lists)| == 1
  {
    if lists != [] {
      SinglesMakeOnePath(lists[..|lists| - 1]);
      assert lists[|lists| - 1] in lists;
      CrossLength(Product(lists[..|lists| - 1]), lists[|lists| - 1]);
    }
  }

  lemma {:induction false} FoldIsProductIfOneMulti(lists: seq<seq<Child>>)
    requires |lists| > 0 && AllNonempty(lists) && AtMostOneMulti(lists)
    ensures FoldAll(lists) == Product(lists)
  {
    var init, last := lists[..|lists| - 1], lists[|lists| - 1];
    assert last in lists;
    if init == [] {
      assert Product(init) == [[]];
      CrossOne([], last);
    } else {
      FoldIsProductIfOneMulti(init);
      var ps := Product(init);
      if |last| == 1 {
        assert Cross(ps, last) == AppendAll(ps, last[0]);
        ProductNonempty(init);
      } else {
        forall l | l in init ensures |l| == 1 {
          var i :| 0 <= i < |init| && init[i] == l;
          assert lists[i] == l && i < |lists| - 1;
        }
        SinglesMakeOnePath(init);
        assert ps == [ps[0]];
        CrossOne(ps[0], last);
      }
    }
  }

  lemma {:induction false} ProductNonempty(lists: seq<seq<Child>>)
    requires AllNonempty(lists)
    ensures |Product(lists)| > 0
  {
    if lists != [] {
      ProductNonempty(lists[..|lists| - 1]);
      assert lists[|lists| - 1] in lists;
      CrossLength(Product(lists[..|lists| - 1]), lists[|lists| - 1]);
    }
  }

  lemma {:induction false} Grow(a: nat, b: nat)
    requires a > 0 && b > 0
    ensures a * b >= a + b - 1
    ensures a > 1 && b > 1 ==> a * b > a + b - 1
    decreases b
  {
    if b > 1 {
      Grow(a, b - 1);
      assert a * b == a * (b - 1) + a;
    }
  }

  lemma ProductGrows(init: seq<seq<Child>>, last: seq<Child>)
    requires |Product(init)| > 0 && |last| > 0
    ensures var a, b, n := |Product(init)|, |last|, |Product(init + [last])|;
            n >= a + b - 1 && (a > 1 && b > 1 ==> n > a + b - 1)
  {
    assert (init + [last])[..|init|] == init;
    CrossLength(Product(init), last);
    Grow(|Product(init)|, |last|);
  }

  /** If the last step spoils the property, it is itself a multipath step and not the first. */
  lemma SecondMulti(init: seq<seq<Child>>, last: seq<Child>)
    requires AllNonempty(init + [last]) && !AtMostOneMulti(init + [last]) && AtMostOneMulti(init)
    ensures |last| > 1 && !AllSingle(init)
  {}

  lemma SinglesGrow(init: seq<seq<Child>>, last: seq<Child>)
    requires AllNonempty(init + [last])
    ensures AllNonempty(init) && |last| > 0
    ensures !AllSingle(init + [last]) ==> !AllSingle(init) || |last| > 1
  {}

  lemma {:induction false} FoldIsShorter(lists: seq<seq<Child>>)
    requires |lists| > 0 && AllNonempty(lists)
    ensures 0 < |FoldAll(lists)| <= |Product(lists)|
    ensures !AtMostOneMulti(lists) ==> |FoldAll(lists)| < |Product(lists)|
    ensures !AllSingle(lists) ==> |Product(lists)| > 1
  {
    var init, last := lists[..|lists| - 1], lists[|lists| - 1];
    assert lists == init + [last];
    SinglesGrow(init, last);
    ProductNonempty(init);
    ProductGrows(init, last);
    if init != [] {
      FoldIsShorter(init);
      FoldLength(init, last);
      if !AtMostOneMulti(lists) && AtMostOneMulti(init) {
        SecondMulti(init, last);
      }
    }
  }

  lemma FoldLength(init: seq<seq<Child>>, last: seq<Child>)
    requires AllNonempty(init + [last]) && AllNonempty(init) && FoldAll(init) != []
    ensures |FoldAll(init + [last])| == |FoldAll(init)| + |last| - 1
  {}

  /** The in-place fold computes the product exactly when at most one step has several
      alternatives: with two, the overwritten entry is no longer the one just copied. */
  lemma FoldIsProduct(lists: seq<seq<Child>>)
    requires |lists| > 0 && AllNonempty(lists)
    ensures FoldAll(lists) == Product(lists) <==> AtMostOneMulti(lists)
  {
    if AtMostOneMulti(lists) {
      FoldIsProductIfOneMulti(lists);
    } else {
      FoldIsShorter(lists);
    }
  }

  /** The number of alternatives of the multipath step, one if there is none. */
  function Width(lists: seq<seq<Child>>): nat {
    if lists == [] then 1
    else if |lists[|lists| - 1]| > 1 then |lists[|lists| - 1]| else Width(lists[..|lists| - 1])
  }

  lemma {:induction false} WidthOfSingles(lists: seq<seq<Child>>)
    requires AllSingle(lists)
    ensures Width(lists) == 1
  {
    if lists != [] {
      assert lists[|lists| - 1] in lists;
      WidthOfSingles(lists[..|lists| - 1]);
    }
  }

  /** Path j takes alternative j at the multipath step and agrees with the others elsewhere. */
  lemma {:induction false} ProductEntries(lists: seq<seq<Child>>)
    requires AllNonempty(lists) && AtMostOneMulti(lists)
    ensures |Product(lists)| == Width(lists)
    ensures forall j | 0 <= j < |Product(lists)| :: |Product(lists)[j]| == |lists|
    ensures forall j, q | 0 <= j < |Product(lists)| && 0 <= q < |lists| ::
              Product(lists)[j][q] == if |lists[q]| > 1 && j < |lists[q]| then lists[q][j] else lists[q][0]
    ensures forall q | 0 <= q < |lists| :: |lists[q]| == 1 || |lists[q]| == Width(lists)
  {
    if lists != [] {
      var init, last := lists[..|lists| - 1], lists[|lists| - 1];
      assert last in lists;
      ProductEntries(init);
      var ps := Product(init);
      if |last| == 1 {
        assert Cross(ps, last) == AppendAll(ps, last[0]);
      } else {
        forall l | l in init ensures |l| == 1 {
          var i :| 0 <= i < |init| && init[i] == l;
          assert lists[i] == l && i < |lists| - 1;
        }
        WidthOfSingles(init);
        assert ps == [ps[0]];
        CrossOne(ps[0], last);
      }
    }
  }

  // ---------------------------------------------------------------- the parser

  predicate ValidChildren(cs: seq<Child>) {
    forall c | c in cs :: c.index < INDEX_LIMIT
  }

  lemma {:induction false} ParsedChildren(parts: seq<string>)
    ensures var r := ParseChildren(parts); r.Some? ==> |r.value| == |parts| && ValidChildren(r.value)
  {
    if parts != [] { ParsedChildren(parts[1..]); }
  }

  lemma SplitInTwo(s: string, c: char)
    requires c in s
    ensures |Split(s, c)| >= 2
  {}

  lemma ParsedMulti(p: string)
    requires IsMultiStep(p)
    ensures var r := ParseMulti(p); r.Ok? ==> |r.value| >= 2 && ValidChildren(r.value)
  {
    if |p| >= 5 && ';' in p {
      assert p == ['<'] + p[1..|p| - 1] + ['>'];
      SplitInTwo(p[1..|p| - 1], ';');
      ParsedChildren(Split(p[1..|p| - 1], ';'));
    }
  }

  lemma NextListShape(p: string, multipath: bool)
    requires NextList(p, multipath).Ok?
    ensures var cs := NextList(p, multipath).value;
            if IsMultiStep(p) then !multipath && |cs| >= 2 && ValidChildren(cs) else |cs| == 1 && ValidChildren(cs)
  {
    if IsMultiStep(p) { ParsedMulti(p); }
  }

  lemma PrependNothing(r: Result<Steps, ParseError>)
    ensures Prepend([], r) == r
  {
    if r.Ok? { assert [] + r.value.0 == r.value.0; }
  }

  lemma PrependOneMore(lists: seq<seq<Child>>, l: seq<Child>, r: Result<Steps, ParseError>)
    ensures Prepend(lists, Prepend([l], r)) == Prepend(lists + [l], r)
  {
    if r.Ok? { assert lists + ([l] + r.value.0) == lists + [l] + r.value.0; }
  }

  lemma OneMoreList(lists: seq<seq<Child>>, l: seq<Child>)
    requires AllNonempty(lists) && AtMostOneMulti(lists) && |l| > 0 && (|l| == 1 || AllSingle(lists))
    ensures AllNonempty(lists + [l]) && AtMostOneMulti(lists + [l])
    ensures |l| == 1 && AllSingle(lists) ==> AllSingle(lists + [l])
    ensures FoldAll(lists + [l]) == FoldStep(FoldAll(lists), l)
  {}

  lemma FinishFold(lists: seq<seq<Child>>, w: Wildcard)
    requires AllNonempty(lists) && AtMostOneMulti(lists)
    ensures Meaning(Prepend(lists, Ok(([], w)))) == Ok((FoldAll(lists), w))
  {
    assert lists + [] == lists;
    if lists != [] { FoldIsProduct(lists); }
  }

  /** The loop over the parts: the closure state `wildcard` and `multipath`, and the fold. */
  method ParseParts(parts: seq<string>) returns (r: Result<(seq<Path>, Wildcard), ParseError>)
    ensures r == Meaning(Collect(parts, NoWildcard, false))
  {
    var wildcard := NoWildcard;
    var multipath := false;
    var paths: seq<Path> := [];
    ghost var lists: seq<seq<Child>> := [];
    ghost var all := Collect(parts, NoWildcard, false);
    assert parts[0..] == parts;
    PrependNothing(all);
    for i := 0 to |parts|
      invariant all == Prepend(lists, Collect(parts[i..], wildcard, multipath))
      invariant AllNonempty(lists) && AtMostOneMulti(lists) && (multipath || AllSingle(lists))
      invariant paths == FoldAll(lists)
    {
      var p := parts[i];
      assert parts[i..][0] == p && parts[i..][1..] == parts[i + 1..];
      if wildcard == NoWildcard && p == "*" {
        wildcard := Unhardened;
        continue;
      }
      if wildcard == NoWildcard && IsHardenedStar(p) {
        wildcard := HardenedWildcard;
        continue;
      }
      if wildcard != NoWildcard {
        return Err(WildcardNotLast);
      }
      var indexList := NextList(p, multipath);
      if indexList.Err? {
        return Err(indexList.error);
      }
      NextListShape(p, multipath);
      multipath := multipath || IsMultiStep(p);
      paths := PushStep(paths, indexList.value);
      PrependOneMore(lists, indexList.value, Collect(parts[i + 1..], wildcard, multipath));
      OneMoreList(lists, indexList.value);
      lists := lists + [indexList.value];
    }
    assert parts[|parts|..] == [];
    FinishFold(lists, wildcard);
    return Ok((paths, wildcard));
  }

  /** The in-place parser computes the product of the steps, stopping at the first error. */
  method ParseXkeyDeriv(keyDeriv: string) returns (r: Result<(seq<Path>, Wildcard), ParseError>)
    ensures r == Parse(keyDeriv)
  {
    r := ParseParts(Split(Replace(keyDeriv, "**", "<0;1>/*"), '/'));
  }

  // ---------------------------------------------------------------- printing

  /** An index and, if it is hardened, the mark it is written with. */
  datatype Index = Index(child: Child, mark: char)

  datatype Step = One(index: Index) | Many(indexes: seq<Index>)

  predicate ValidIndex(i: Index) {
    i.child.index < INDEX_LIMIT && (i.mark == '\'' || i.mark == 'h')
  }

  function IndexesOf(step: Step): seq<Index> {
    if step.One? then [step.index] else step.indexes
  }

  predicate ValidStep(step: Step) {
    (forall i | i in IndexesOf(step) :: ValidIndex(i)) && (step.Many? ==> |step.indexes| >= 2)
  }

  predicate ValidSteps(steps: seq<Step>) {
    && |steps| > 0
    && (forall s | s in steps :: ValidStep(s))
    && forall i, j | 0 <= i < j < |steps| :: steps[i].One? || steps[j].One?
  }

  function PrintIndex(i: Index): string {
    Decimal(i.child.index) + if i.child.Hardened? then [i.mark] else ""
  }

  function PrintIndexes(xs: seq<Index>): seq<string> {
    seq(|xs|, k requires 0 <= k < |xs| => PrintIndex(xs[k]))
  }

  function PrintStep(step: Step): string
    requires ValidStep(step)
  {
    match step
    case One(i) => PrintIndex(i)
    case Many(xs) => "<" + Join(PrintIndexes(xs), ';') + ">"
  }

  function PrintSteps(steps: seq<Step>): seq<string>
    requires forall s | s in steps :: ValidStep(s)
  {
    seq(|steps|, k requires 0 <= k < |steps| => PrintStep(steps[k]))
  }

  function PrintWildcard(w: Wildcard, mark: char): seq<string> {
    match w
    case NoWildcard => []
    case Unhardened => ["*"]
    case HardenedWildcard => ["*" + [mark]]
  }

  /** The syntax of the Specification section of BIP 389. */
  function Print(steps: seq<Step>, w: Wildcard, mark: char): string
    requires ValidSteps(steps)
  {
    Join(PrintSteps(steps) + PrintWildcard(w, mark), '/')
  }

  function Children(xs: seq<Index>): seq<Child> {
    seq(|xs|, k requires 0 <= k < |xs| => xs[k].child)
  }

  function Lists(steps: seq<Step>): seq<seq<Child>> {
    seq(|steps|, k requires 0 <= k < |steps| => Children(IndexesOf(steps[k])))
  }

  /** The number of paths a list of steps stands for. */
  function PathCount(steps: seq<Step>): nat {
    if steps == [] then 1
    else if steps[0].Many? then |steps[0].indexes| else PathCount(steps[1..])
  }

  /** Path j, read off the steps. */
  function PathAt(steps: seq<Step>, j: nat): Path {
    seq(|steps|, q requires 0 <= q < |steps| =>
          match steps[q]
          case One(i) => i.child
          case Many(xs) => if j < |xs| then xs[j].child else Normal(0))
  }

  function Paths(steps: seq<Step>): seq<Path> {
    seq(PathCount(steps), j requires 0 <= j => PathAt(steps, j))
  }

  // ---------------------------------------------------------------- parse after print

  predicate Plain(s: string) {
    forall c | c in s :: IsDigit(c) || c == '\'' || c == 'h'
  }

  lemma IndexRoundTrip(i: Index)
    requires ValidIndex(i)
    ensures ParseChild(PrintIndex(i)) == Some(i.child)
    ensures |PrintIndex(i)| > 0 && IsDigit(PrintIndex(i)[0]) && Plain(PrintIndex(i))
  {
    DecimalValue(i.child.index);
    ParseDecimal(i.child.index);
    var d, s := Decimal(i.child.index), PrintIndex(i);
    assert d[0] in d && d[|d| - 1] in d;
    if i.child.Hardened? {
      assert s[..|s| - 1] == d;
    } else {
      assert s == d;
    }
  }

  lemma {:induction false} IndexesRoundTrip(xs: seq<Index>)
    requires forall i | i in xs :: ValidIndex(i)
    ensures ParseChildren(PrintIndexes(xs)) == Some(Children(xs))
  {
    if xs == [] {
      assert PrintIndexes(xs) == [] && Children(xs) == [];
    } else {
      IndexRoundTrip(xs[0]);
      IndexesRoundTrip(xs[1..]);
      assert PrintIndexes(xs)[1..] == PrintIndexes(xs[1..]);
      assert [xs[0].child] + Children(xs[1..]) == Children(xs);
    }
  }

  lemma PrintedIndexesArePlain(xs: seq<Index>)
    requires forall i | i in xs :: ValidIndex(i)
    ensures forall p | p in PrintIndexes(xs) :: Plain(p) && |p| > 0
  {
    forall p | p in PrintIndexes(xs) ensures Plain(p) && |p| > 0 {
      var k :| 0 <= k < |xs| && p == PrintIndex(xs[k]);
      assert xs[k] in xs;
      IndexRoundTrip(xs[k]);
    }
  }

  lemma MultiRoundTrip(step: Step)
    requires ValidStep(step) && step.Many?
    ensures IsMultiStep(PrintStep(step)) && ParseMulti(PrintStep(step)) == Ok(Children(step.indexes))
    ensures '/' !in PrintStep(step) && '*' !in PrintStep(step)
  {
    var xs, parts := step.indexes, PrintIndexes(step.indexes);
    var inner, p := Join(parts, ';'), PrintStep(step);
    PrintedIndexesArePlain(xs);
    forall q | q in parts ensures ';' !in q && '/' !in q && '*' !in q {
      assert Plain(q);
    }
    SplitJoin(parts, ';');
    JoinMembers(parts, ';', '/');
    JoinMembers(parts, ';', '*');
    IndexesRoundTrip(xs);
    assert inner == parts[0] + [';'] + Join(parts[1..], ';');
    assert parts[0] in parts && parts[1] in parts;
    assert |Join(parts[1..], ';')| > 0;
    assert inner[|parts[0]|] == ';';
    assert p[1..|p| - 1] == inner;
    assert p[1 + |parts[0]|] == ';';
  }

  lemma StepRoundTrip(step: Step)
    requires ValidStep(step)
    ensures var p := PrintStep(step);
            && '/' !in p && '*' !in p
            && (IsMultiStep(p) <==> step.Many?)
            && (if step.Many? then ParseMulti(p) else ParseSingle(p)) == Ok(Children(IndexesOf(step)))
  {
    match step
    case One(i) =>
      assert i in IndexesOf(step);
      IndexRoundTrip(i);
      assert Children(IndexesOf(step)) == [i.child];
    case Many(_) =>
      MultiRoundTrip(step);
  }

  lemma CollectWildcard(w: Wildcard, mark: char, multipath: bool)
    requires mark == '\'' || mark == 'h'
    ensures Collect(PrintWildcard(w, mark), NoWildcard, multipath) == Ok(([], w))
  {}

  lemma CollectOneStep(step: Step, rest: seq<string>, multipath: bool, lists: seq<seq<Child>>, w: Wildcard)
    requires ValidStep(step) && (multipath ==> step.One?)
    requires Collect(rest, NoWildcard, multipath || step.Many?) == Ok((lists, w))
    ensures Collect([PrintStep(step)] + rest, NoWildcard, multipath) == Ok(([Children(IndexesOf(step))] + lists, w))
  {
    var p := PrintStep(step);
    assert p == "*" || IsHardenedStar(p) ==> '*' in p by {
      if p == "*" || IsHardenedStar(p) { assert p[0] == '*'; }
    }
    StepRoundTrip(step);
    assert ([p] + rest)[1..] == rest;
  }

  /** Valid steps with at most one multipath step, or none if there was one before. */
  predicate StepsOk(steps: seq<Step>, multipath: bool) {
    && (forall s | s in steps :: ValidStep(s))
    && (forall i, j | 0 <= i < j < |steps| :: steps[i].One? || steps[j].One?)
    && (multipath ==> forall s | s in steps :: s.One?)
  }

  lemma StepsOkTail(steps: seq<Step>, multipath: bool)
    requires StepsOk(steps, multipath) && steps != []
    ensures ValidStep(steps[0]) && (multipath ==> steps[0].One?)
    ensures StepsOk(steps[1..], multipath || steps[0].Many?)
  {}

  lemma PrintStepsCons(steps: seq<Step>)
    requires steps != [] && forall s | s in steps :: ValidStep(s)
    ensures PrintSteps(steps) == [PrintStep(steps[0])] + PrintSteps(steps[1..])
    ensures Lists(steps) == [Children(IndexesOf(steps[0]))] + Lists(steps[1..])
  {}

  /** Collecting printed steps gives their alternatives back. */
  lemma {:induction false} CollectPrinted(steps: seq<Step>, w: Wildcard, mark: char, multipath: bool)
    requires StepsOk(steps, multipath) && (mark == '\'' || mark == 'h')
    ensures Collect(PrintSteps(steps) + PrintWildcard(w, mark), NoWildcard, multipath) == Ok((Lists(steps), w))
  {
    if steps == [] {
      assert Lists(steps) == [];
      assert PrintSteps(steps) + PrintWildcard(w, mark) == PrintWildcard(w, mark);
      CollectWildcard(w, mark, multipath);
    } else {
      var rest := PrintSteps(steps[1..]) + PrintWildcard(w, mark);
      StepsOkTail(steps, multipath);
      PrintStepsCons(steps);
      assert PrintSteps(steps) + PrintWildcard(w, mark) == [PrintStep(steps[0])] + rest;
      CollectPrinted(steps[1..], w, mark, multipath || steps[0].Many?);
      CollectOneStep(steps[0], rest, multipath, Lists(steps[1..]), w);
    }
  }

  lemma {:induction false} WidthIsPathCount(steps: seq<Step>)
    requires (forall s | s in steps :: ValidStep(s))
    requires forall i, j | 0 <= i < j < |steps| :: steps[i].One? || steps[j].One?
    ensures Width(Lists(steps)) == PathCount(steps)
  {
    if steps != [] {
      if steps[0].Many? {
        SingleTail(steps);
      } else {
        WidthIsPathCount(steps[1..]);
        assert Lists(steps) == [Children(IndexesOf(steps[0]))] + Lists(steps[1..]);
        WidthSkips(Children(IndexesOf(steps[0])), Lists(steps[1..]));
      }
    }
  }

  lemma {:induction false} WidthSkips(first: seq<Child>, rest: seq<seq<Child>>)
    requires |first| == 1
    ensures Width([first] + rest) == Width(rest)
  {
    var all := [first] + rest;
    if rest == [] {
      assert all[..|all| - 1] == [];
    } else {
      assert all[..|all| - 1] == [first] + rest[..|rest| - 1];
      WidthSkips(first, rest[..|rest| - 1]);
    }
  }

  lemma {:induction false} WidthOfFirst(lists: seq<seq<Child>>)
    requires |lists| > 0 && |lists[0]| > 1 && AllSingle(lists[1..])
    ensures Width(lists) == |lists[0]|
  {
    if |lists| > 1 {
      assert lists[|lists| - 1] == lists[1..][|lists| - 2] && lists[|lists| - 1] in lists[1..];
      assert lists[..|lists| - 1][1..] == lists[1..][..|lists| - 2];
      WidthOfFirst(lists[..|lists| - 1]);
    }
  }

  lemma SingleTail(steps: seq<Step>)
    requires |steps| > 0 && steps[0].Many? && ValidStep(steps[0])
    requires forall i, j | 0 <= i < j < |steps| :: steps[i].One? || steps[j].One?
    ensures Width(Lists(steps)) == |steps[0].indexes|
  {
    forall l | l in Lists(steps)[1..] ensures |l| == 1 {
      var k :| 0 <= k < |steps| - 1 && l == Lists(steps)[1..][k];
      assert steps[0].One? || steps[k + 1].One?;
    }
    WidthOfFirst(Lists(steps));
  }

  /** The product of the steps' alternatives is the list of paths read off the steps. */
  lemma ProductIsPaths(steps: seq<Step>)
    requires ValidSteps(steps)
    ensures AllNonempty(Lists(steps)) && AtMostOneMulti(Lists(steps)) && Product(Lists(steps)) == Paths(steps)
  {
    var lists := Lists(steps);
    forall l | l in lists ensures |l| > 0 {
      var k :| 0 <= k < |steps| && l == Children(IndexesOf(steps[k]));
      assert steps[k] in steps && ValidStep(steps[k]);
    }
    ProductEntries(lists);
    WidthIsPathCount(steps);
    forall j | 0 <= j < |Product(lists)| ensures Product(lists)[j] == Paths(steps)[j] {
      forall q | 0 <= q < |steps| ensures Product(lists)[j][q] == PathAt(steps, j)[q] {
        assert steps[q] in steps && ValidStep(steps[q]);
        assert |lists[q]| == 1 || |lists[q]| == Width(lists);
      }
    }
  }

  lemma WildcardSuffix(steps: seq<Step>, w: Wildcard, mark: char)
    requires ValidSteps(steps)
    ensures Print(steps, w, mark) == Print(steps, NoWildcard, mark) +
              match w
              case NoWildcard => ""
              case Unhardened => "/*"
              case HardenedWildcard => "/*" + [mark]
  {
    var parts := PrintSteps(steps);
    assert parts + [] == parts;
    if w.Unhardened? {
      JoinLast(parts, '/', "*");
      assert Join(parts, '/') + ['/'] + "*" == Join(parts, '/') + "/*";
    } else if w.HardenedWildcard? {
      JoinLast(parts, '/', "*" + [mark]);
      assert Join(parts, '/') + ['/'] + ("*" + [mark]) == Join(parts, '/') + ("/*" + [mark]);
    }
  }

  lemma NoStarInSteps(steps: seq<Step>, mark: char)
    requires ValidSteps(steps)
    ensures '*' !in Print(steps, NoWildcard, mark)
    ensures forall p | p in PrintSteps(steps) :: '/' !in p && '*' !in p
  {
    var parts := PrintSteps(steps);
    assert parts + [] == parts;
    forall p | p in parts ensures '/' !in p && '*' !in p {
      var k :| 0 <= k < |steps| && p == PrintStep(steps[k]);
      assert steps[k] in steps;
      StepRoundTrip(steps[k]);
    }
    JoinMembers(parts, '/', '*');
  }

  /** A text without stars is copied, up to what follows it. */
  lemma ReplaceAfter(u: string, v: string)
    requires '*' !in u
    ensures Replace(u + v, "**", "<0;1>/*") == u + Replace(v, "**", "<0;1>/*")
  {
    forall i | 0 <= i < |u| ensures !("**" <= (u + v)[i..]) {
      var t := (u + v)[i..];
      assert t[0] == u[i] && u[i] in u;
    }
    ReplaceSkips(u, v, "**", "<0;1>/*");
  }

  lemma MarkedStarStays(mark: char)
    requires mark != '*'
    ensures Replace("*" + [mark], "**", "<0;1>/*") == "*" + [mark]
  {
    var v := "*" + [mark];
    assert v[1] == mark && "**"[1] == '*';
    assert v[1..] == [mark] && [mark][1..] == "";
    assert Replace([mark], "**", "<0;1>/*") == [mark] + "" == [mark];
    assert Replace(v, "**", "<0;1>/*") == [v[0]] + [mark];
  }

  lemma NoSugar(steps: seq<Step>, w: Wildcard, mark: char)
    requires ValidSteps(steps) && (mark == '\'' || mark == 'h')
    ensures Replace(Print(steps, w, mark), "**", "<0;1>/*") == Print(steps, w, mark)
  {
    var u := Print(steps, NoWildcard, mark);
    NoStarInSteps(steps, mark);
    WildcardSuffix(steps, w, mark);
    match w {
      case NoWildcard =>
        assert u + "" == u;
        ReplaceAfter(u, "");
      case Unhardened =>
        ReplaceAfter(u + "/", "*");
        assert u + "/" + "*" == u + "/*";
        assert Replace("*", "**", "<0;1>/*") == "*" by { assert "*"[1..] == ""; }
      case HardenedWildcard =>
        var v := "*" + [mark];
        ReplaceAfter(u + "/", v);
        assert u + "/" + v == u + ("/*" + [mark]);
        MarkedStarStays(mark);
    }
  }

  /** Parse after print is the identity. */
  lemma ParsePrint(steps: seq<Step>, w: Wildcard, mark: char)
    requires ValidSteps(steps) && (mark == '\'' || mark == 'h')
    ensures Parse(Print(steps, w, mark)) == Ok((Paths(steps), w))
  {
    var parts := PrintSteps(steps) + PrintWildcard(w, mark);
    NoSugar(steps, w, mark);
    NoStarInSteps(steps, mark);
    forall p | p in parts ensures '/' !in p {
      assert p in PrintSteps(steps) || p in PrintWildcard(w, mark);
    }
    SplitJoin(parts, '/');
    CollectPrinted(steps, w, mark, false);
    ProductIsPaths(steps);
  }

  const RECEIVE_CHANGE: Step := Many([Index(Normal(0), 'h'), Index(Normal(1), 'h')])

  lemma SugarSteps(steps: seq<Step>)
    requires forall s | s in steps :: ValidStep(s) && s.One?
    ensures ValidSteps(steps + [RECEIVE_CHANGE])
    ensures Print(steps + [RECEIVE_CHANGE], Unhardened, 'h') ==
            if steps == [] then "<0;1>/*" else Print(steps, NoWildcard, 'h') + "/<0;1>/*"
  {
    var all := steps + [RECEIVE_CHANGE];
    assert forall s | s in all :: s in steps || s == RECEIVE_CHANGE;
    assert PrintStep(RECEIVE_CHANGE) == "<0;1>" by {
      var parts := PrintIndexes(RECEIVE_CHANGE.indexes);
      assert Decimal(0) + "" == "0" && Decimal(1) + "" == "1";
      assert parts == ["0", "1"];
      assert parts[1..] == ["1"];
      assert Join(parts, ';') == "0" + ";" + "1" == "0;1";
    }
    WildcardSuffix(all, Unhardened, 'h');
    assert PrintSteps(all) + [] == PrintSteps(all) == PrintSteps(steps) + ["<0;1>"];
    if steps != [] {
      assert PrintSteps(steps) + [] == PrintSteps(steps);
      JoinLast(PrintSteps(steps), '/', "<0;1>");
      var u := Print(steps, NoWildcard, 'h');
      assert u + ['/'] + "<0;1>" + "/*" == u + "/<0;1>/*";
    } else {
      assert PrintSteps(all) == ["<0;1>"];
    }
  }

  /** The text of steps that end in `**`. */
  function WithDoubleStar(steps: seq<Step>): string
    requires forall s | s in steps :: ValidStep(s) && s.One?
  {
    if steps == [] then "**" else Print(steps, NoWildcard, 'h') + "/**"
  }

  lemma SugarReplaced(steps: seq<Step>)
    requires forall s | s in steps :: ValidStep(s) && s.One?
    ensures Replace(WithDoubleStar(steps), "**", "<0;1>/*") ==
            if steps == [] then "<0;1>/*" else Print(steps, NoWildcard, 'h') + "/<0;1>/*"
  {
    var r := "<0;1>/*";
    assert Replace("**", "**", r) == r by { assert "**"[2..] == ""; }
    if steps != [] {
      var u := Print(steps, NoWildcard, 'h');
      NoStarInSteps(steps, 'h');
      ReplaceAfter(u + "/", "**");
      assert u + "/" + "**" == u + "/**";
      assert u + "/" + r == u + "/<0;1>/*";
    }
  }

  /** A final `**` stands for `<0;1>` and an unhardened wildcard. */
  lemma DoubleStar(steps: seq<Step>)
    requires forall s | s in steps :: ValidStep(s) && s.One?
    ensures ValidSteps(steps + [RECEIVE_CHANGE])
    ensures Parse(WithDoubleStar(steps)) == Ok((Paths(steps + [RECEIVE_CHANGE]), Unhardened))
  {
    SugarSteps(steps);
    SugarReplaced(steps);
    ParsePrint(steps + [RECEIVE_CHANGE], Unhardened, 'h');
    NoSugar(steps + [RECEIVE_CHANGE], Unhardened, 'h');
  }

  // ---------------------------------------------------------------- what is accepted

  /** Accepted steps have valid indexes and at most one of them several alternatives. */
  lemma {:induction false} Collected(parts: seq<string>, wildcard: Wildcard, multipath: bool)
    ensures var r := Collect(parts, wildcard, multipath);
            r.Ok? ==>
              && AllNonempty(r.value.0) && AtMostOneMulti(r.value.0)
              && (multipath ==> AllSingle(r.value.0))
              && forall l | l in r.value.0 :: ValidChildren(l)
  {
    if parts != [] {
      var p := parts[0];
      Collected(parts[1..], Unhardened, multipath);
      Collected(parts[1..], HardenedWildcard, multipath);
      Collected(parts[1..], wildcard, multipath || IsMultiStep(p));
      if NextList(p, multipath).Ok? {
        NextListShape(p, multipath);
        var tail := Collect(parts[1..], wildcard, multipath || IsMultiStep(p));
        if tail.Ok? {
          assert forall k | 0 <= k < |tail.value.0| :: tail.value.0[k] in tail.value.0;
        }
      }
    }
  }

  predicate IsStar(p: string) {
    p == "*" || IsHardenedStar(p)
  }

  function StarOf(p: string): Wildcard {
    if p == "*" then Unhardened else HardenedWildcard
  }

  /** How many parts are steps: all, or all but a final wildcard. */
  function StepCount(parts: seq<string>): nat {
    if parts != [] && IsStar(parts[|parts| - 1]) then |parts| - 1 else |parts|
  }

  /** Every part but a final wildcard is a step, and at most one is a multipath step. */
  predicate WellFormedParts(parts: seq<string>, multipath: bool) {
    && (forall k | 0 <= k < StepCount(parts) :: NextList(parts[k], false).Ok?)
    && (forall j, k | 0 <= j < k < StepCount(parts) :: !IsMultiStep(parts[j]) || !IsMultiStep(parts[k]))
    && (multipath ==> forall k | 0 <= k < StepCount(parts) :: !IsMultiStep(parts[k]))
  }

  lemma StarIsNoStep(p: string)
    requires IsStar(p)
    ensures !IsMultiStep(p) && NextList(p, false).Err?
  {}

  lemma {:induction false} CollectAfterStar(parts: seq<string>, w: Wildcard, multipath: bool)
    requires !w.NoWildcard?
    ensures Collect(parts, w, multipath) == if parts == [] then Ok(([], w)) else Err(WildcardNotLast)
  {}

  /** The alternatives of each step of well-formed parts. */
  function StepLists(parts: seq<string>): seq<seq<Child>> {
    seq(StepCount(parts), k requires 0 <= k < StepCount(parts) =>
          match NextList(parts[k], false)
          case Ok(cs) => cs
          case Err(_) => [])
  }

  function FinalWildcard(parts: seq<string>): Wildcard {
    if parts != [] && IsStar(parts[|parts| - 1]) then StarOf(parts[|parts| - 1]) else NoWildcard
  }

  /** Exactly the well-formed parts are accepted, and each step contributes its alternatives. */
  lemma {:induction false} AcceptedExactly(parts: seq<string>, multipath: bool)
    ensures Collect(parts, NoWildcard, multipath).Ok? <==> WellFormedParts(parts, multipath)
    ensures WellFormedParts(parts, multipath) ==>
              Collect(parts, NoWildcard, multipath) == Ok((StepLists(parts), FinalWildcard(parts)))
  {
    if parts == [] {
      assert StepLists(parts) == [];
    } else {
      var p, rest := parts[0], parts[1..];
      if IsStar(p) {
        CollectAfterStar(rest, StarOf(p), multipath);
        StarIsNoStep(p);
        if rest == [] {
          assert StepCount(parts) == 0 && StepLists(parts) == [];
        } else {
          assert 0 < StepCount(parts) && !NextList(parts[0], false).Ok?;
        }
      } else {
        AcceptedExactly(rest, multipath || IsMultiStep(p));
        StepCountTail(parts);
        WellFormedTail(parts, multipath);
        if WellFormedParts(parts, multipath) {
          assert [NextList(p, false).value] + StepLists(rest) == StepLists(parts);
        }
      }
    }
  }

  lemma StepCountTail(parts: seq<string>)
    requires parts != [] && !IsStar(parts[0])
    ensures StepCount(parts) == 1 + StepCount(parts[1..])
    ensures forall k | 0 <= k < |parts| - 1 :: parts[1..][k] == parts[k + 1]
  {}

  lemma WellFormedTail(parts: seq<string>, multipath: bool)
    requires parts != [] && !IsStar(parts[0])
    ensures WellFormedParts(parts, multipath) <==>
            NextList(parts[0], multipath).Ok? && WellFormedParts(parts[1..], multipath || IsMultiStep(parts[0]))
  {}

  function StepOf(l: seq<Child>): Step
    requires |l| > 0
  {
    if |l| == 1 then One(Index(l[0], 'h')) else Many(seq(|l|, k requires 0 <= k < |l| => Index(l[k], 'h')))
  }

  function StepsOf(lists: seq<seq<Child>>): seq<Step>
    requires AllNonempty(lists)
  {
    seq(|lists|, k requires 0 <= k < |lists| => assert lists[k] in lists; StepOf(lists[k]))
  }

  lemma StepsOfLists(lists: seq<seq<Child>>)
    requires |lists| > 0 && AllNonempty(lists) && AtMostOneMulti(lists)
    requires forall l | l in lists :: ValidChildren(l)
    ensures ValidSteps(StepsOf(lists)) && Lists(StepsOf(lists)) == lists
  {
    var steps := StepsOf(lists);
    forall k | 0 <= k < |lists| ensures ValidStep(steps[k]) && Children(IndexesOf(steps[k])) == lists[k] {
      assert lists[k] in lists;
    }
  }

  /** Only a lone wildcard is accepted without a path. */
  lemma {:induction false} NoPathMeansWildcard(s: string)
    requires Parse(s).Ok? && Parse(s).value.0 == []
    ensures !Parse(s).value.1.NoWildcard?
  {
    var parts := Split(Replace(s, "**", "<0;1>/*"), '/');
    AcceptedExactly(parts, false);
    Collected(parts, NoWildcard, false);
    ProductNonempty(StepLists(parts));
  }

  /** Whatever is accepted with at least one path is a list of steps in disguise: it means what the
      printed form of those steps means. */
  lemma AcceptedIsPrintable(s: string) returns (steps: seq<Step>)
    requires Parse(s).Ok? && Parse(s).value.0 != []
    ensures ValidSteps(steps) && Parse(s).value.0 == Paths(steps)
    ensures Parse(Print(steps, Parse(s).value.1, 'h')) == Parse(s)
  {
    var parts := Split(Replace(s, "**", "<0;1>/*"), '/');
    Collected(parts, NoWildcard, false);
    var lists := Collect(parts, NoWildcard, false).value.0;
    steps := StepsOf(lists);
    StepsOfLists(lists);
    ProductIsPaths(steps);
    ParsePrint(steps, Parse(s).value.1, 'h');
  }

  /** A numeral and one more character that is not a digit are a child number exactly if the index is
      in range and the character is `'` or the lower-case `h`; then the child is hardened. */
  lemma HardenedMarks(n: nat, c: char)
    requires !IsDigit(c)
    ensures ParseChild(Decimal(n) + [c]).Some? <==> n < INDEX_LIMIT && (c == '\'' || c == 'h')
    ensures ParseChild(Decimal(n) + [c]).Some? ==> ParseChild(Decimal(n) + [c]).value == Hardened(n)
  {
    var s := Decimal(n) + [c];
    DecimalValue(n);
    assert Decimal(n)[0] in Decimal(n);
    assert s[..|s| - 1] == Decimal(n) && s[|s| - 1] == c;
    assert c in s && c in s[1..];
  }

  // ---------------------------------------------------------------- what is rejected

  predicate HasMultiStep(parts: seq<string>) {
    exists p :: p in parts && IsMultiStep(p)
  }

  /** One more step in front. */
  lemma CollectPastStep(front: seq<string>, tail: seq<string>, multipath: bool)
    requires WellFormedParts(front, multipath) && front != [] && !IsStar(front[0])
    requires var p, more := front[0], front[1..];
             WellFormedParts(more, multipath || IsMultiStep(p)) &&
             Collect(more + tail, NoWildcard, multipath || IsMultiStep(p)) ==
             Prepend(StepLists(more), Collect(tail, FinalWildcard(more), multipath || IsMultiStep(p) || HasMultiStep(more)))
    ensures Collect(front + tail, NoWildcard, multipath) ==
            Prepend(StepLists(front), Collect(tail, FinalWildcard(front), multipath || HasMultiStep(front)))
  {
    var p, more := front[0], front[1..];
    assert (front + tail)[0] == p && (front + tail)[1..] == more + tail;
    assert front == [p] + more;
    WellFormedTail(front, multipath);
    StepCountTail(front);
    assert FinalWildcard(more) == FinalWildcard(front);
    assert HasMultiStep(front) == (IsMultiStep(p) || HasMultiStep(more));
    PrependTwice(NextList(p, false).value, StepLists(more), Collect(tail, FinalWildcard(front), multipath || HasMultiStep(front)));
    StepListsTail(front);
  }

  lemma StepListsTail(front: seq<string>)
    requires front != [] && !IsStar(front[0]) && NextList(front[0], false).Ok?
    ensures StepLists(front) == [NextList(front[0], false).value] + StepLists(front[1..])
  {
    StepCountTail(front);
  }

  /** A wildcard alone. */
  lemma CollectPastStar(p: string, tail: seq<string>, multipath: bool)
    requires IsStar(p)
    ensures Collect([p] + tail, NoWildcard, multipath) ==
            Prepend(StepLists([p]), Collect(tail, FinalWildcard([p]), multipath || HasMultiStep([p])))
  {
    StarIsNoStep(p);
    assert ([p] + tail)[1..] == tail && StepLists([p]) == [];
    PrependNothing(Collect(tail, StarOf(p), multipath));
  }

  /** What has been read before the tail of well-formed parts. */
  lemma {:induction false} CollectPast(front: seq<string>, tail: seq<string>, multipath: bool)
    requires WellFormedParts(front, multipath)
    ensures Collect(front + tail, NoWildcard, multipath) ==
            Prepend(StepLists(front), Collect(tail, FinalWildcard(front), multipath || HasMultiStep(front)))
    decreases |front|
  {
    if front == [] {
      assert front + tail == tail && StepLists(front) == [];
      PrependNothing(Collect(tail, NoWildcard, multipath));
    } else if IsStar(front[0]) {
      StarEndsParts(front, multipath);
      assert front == [front[0]];
      CollectPastStar(front[0], tail, multipath);
    } else {
      WellFormedTail(front, multipath);
      CollectPast(front[1..], tail, multipath || IsMultiStep(front[0]));
      CollectPastStep(front, tail, multipath);
    }
  }

  lemma StarEndsParts(front: seq<string>, multipath: bool)
    requires WellFormedParts(front, multipath) && front != [] && IsStar(front[0])
    ensures |front| == 1
  {
    StarIsNoStep(front[0]);
    assert |front| > 1 ==> 0 < StepCount(front);
  }

  lemma PrependTwice(l: seq<Child>, lists: seq<seq<Child>>, r: Result<Steps, ParseError>)
    ensures Prepend([l], Prepend(lists, r)) == Prepend([l] + lists, r)
  {
    if r.Ok? { assert [l] + (lists + r.value.0) == [l] + lists + r.value.0; }
  }

  /** Which error the first part gives that does not fit what precedes it: anything after a wildcard, a
      second bracketed step, a bracketed step that is too short or has no `;`, one with an alternative
      that is no child number, and any other text that is neither a wildcard nor a child number. */
  lemma FirstErrorDecides(front: seq<string>, bad: string, rest: seq<string>)
    requires WellFormedParts(front, false)
    ensures var r := Collect(front + ([bad] + rest), NoWildcard, false);
            var bracketed := |bad| > 1 && bad[0] == '<' && bad[|bad| - 1] == '>';
            if FinalWildcard(front) != NoWildcard then r == Err(WildcardNotLast)
            else if bracketed then
              if HasMultiStep(front) then r == Err(SecondMultipath)
              else if |bad| < 5 || ';' !in bad then r == Err(InvalidMultiStep)
              else (exists x :: x in Split(bad[1..|bad| - 1], ';') && ParseChild(x).None?) ==> r == Err(InvalidMultiIndex)
            else bad != "*" && bad != "*'" && bad != "*h" && ParseChild(bad).None? ==> r == Err(InvalidIndex)
  {
    CollectPast(front, [bad] + rest, false);
    assert ([bad] + rest)[1..] == rest;
    if IsMultiStep(bad) { AllParse(Split(bad[1..|bad| - 1], ';')); }
  }

  predicate IsMark(mark: string, c: Child) {
    if c.Hardened? then mark == "'" || mark == "h" else mark == ""
  }

  /** The texts of a child number: an optional plus sign, any number of zeros, the numeral of an index
      below 2^31, and a mark exactly if it is hardened. */
  lemma ChildTexts(s: string, c: Child)
    ensures ParseChild(s) == Some(c) <==>
            c.index < INDEX_LIMIT &&
            exists z: nat, mark :: IsMark(mark, c) && IsIndexText(s, z, c.index, mark)
  {
    if ParseChild(s) == Some(c) {
      var z, mark := ChildTextOf(s, c);
    }
    if z: nat, mark :| c.index < INDEX_LIMIT && IsMark(mark, c) && IsIndexText(s, z, c.index, mark) {
      ChildTextBody(s, z, c, mark);
    }
  }

  lemma ChildTextOf(s: string, c: Child) returns (z: nat, mark: string)
    requires ParseChild(s) == Some(c)
    ensures c.index < INDEX_LIMIT && IsMark(mark, c) && IsIndexText(s, z, c.index, mark)
  {
    var hardened := |s| > 0 && (s[|s| - 1] == '\'' || s[|s| - 1] == 'h');
    var body := if hardened then s[..|s| - 1] else s;
    z := NumeralTextOf(body, c.index);
    mark := if hardened then [s[|s| - 1]] else "";
    assert s == body + mark;
  }

  predicate IsIndexText(s: string, z: nat, index: nat, mark: string) {
    s == Zeros(z) + Decimal(index) + mark || s == "+" + (Zeros(z) + Decimal(index)) + mark
  }

  lemma ChildOfBody(body: string, mark: string, c: Child)
    requires ParseU32(body) == Some(c.index) && c.index < INDEX_LIMIT && IsMark(mark, c)
    requires body != "" && IsDigit(body[|body| - 1])
    ensures ParseChild(body + mark) == Some(c)
  {
    var s := body + mark;
    if c.Hardened? {
      assert s[|s| - 1] == mark[0] && s[..|s| - 1] == body;
    } else {
      assert s == body;
    }
  }

  lemma ChildTextBody(s: string, z: nat, c: Child, mark: string)
    requires c.index < INDEX_LIMIT && IsMark(mark, c) && IsIndexText(s, z, c.index, mark)
    ensures ParseChild(s) == Some(c)
  {
    var digits := Zeros(z) + Decimal(c.index);
    var body := if s == digits + mark then digits else "+" + digits;
    NumeralTextReads(body, z, c.index);
    EndsInDigit(body, z, c.index);
    ChildOfBody(body, mark, c);
  }

  lemma EndsInDigit(body: string, z: nat, n: nat)
    requires IsNumeralText(body, z, n)
    ensures body != "" && IsDigit(body[|body| - 1])
  {
    DecimalValue(n);
    var d := Decimal(n);
    assert d[|d| - 1] in d && body[|body| - 1] == d[|d| - 1];
  }

  lemma {:induction false} AllParse(ps: seq<string>)
    ensures ParseChildren(ps).Some? <==> forall p | p in ps :: ParseChild(p).Some?
  {
    if ps != [] {
      assert ps == [ps[0]] + ps[1..];
      AllParse(ps[1..]);
    }
  }

  lemma {:induction false} JoinedLength(ps: seq<string>, c: char)
    requires |ps| > 0
    ensures |Join(ps, c)| >= |ps| - 1 && (|ps| > 1 ==> c in Join(ps, c))
    ensures |ps| >= 2 && (forall p | p in ps :: p != "") ==> |Join(ps, c)| >= 3
  {
    if |ps| > 1 {
      JoinedLength(ps[1..], c);
      assert ps[0] in ps && ps[1] in ps && ps[1..][0] == ps[1];
      assert |ps| == 2 ==> Join(ps[1..], c) == ps[1];
    }
  }

  lemma EmptyIsNoChild()
    ensures ParseChild("") == None
  {}

  /** A multipath step is accepted exactly if it has at least two alternatives and each is a child
      number; an empty one, as in `<0;>`, is not.  With one alternative, or fewer than five characters,
      it is no multipath step at all. */
  lemma MultiStepAccepted(ps: seq<string>)
    requires |ps| > 0 && forall p | p in ps :: ';' !in p
    ensures var p := "<" + Join(ps, ';') + ">";
            && IsMultiStep(p)
            && (ParseMulti(p).Ok? <==> |ps| >= 2 && forall x | x in ps :: ParseChild(x).Some?)
            && (ParseMulti(p) == Err(InvalidMultiStep) <==> |ps| == 1 || |p| < 5)
  {
    var p := "<" + Join(ps, ';') + ">";
    assert p[1..|p| - 1] == Join(ps, ';');
    SplitJoin(ps, ';');
    AllParse(ps);
    JoinedLength(ps, ';');
    EmptyIsNoChild();
    if |ps| == 1 {
      assert Join(ps, ';') == ps[0] && ps[0] in ps;
    } else {
      assert p[1..|p| - 1][0..] == Join(ps, ';');
      assert forall c | c in Join(ps, ';') :: c in p;
    }
  }

  lemma SplitOfParts(parts: seq<string>)
    requires |parts| > 0 && forall p | p in parts :: '/' !in p && '*' !in p
    ensures Split(Replace(Join(parts, '/'), "**", "<0;1>/*"), '/') == parts
  {
    var s := Join(parts, '/');
    JoinMembers(parts, '/', '*');
    assert s + "" == s;
    ReplaceAfter(s, "");
    SplitJoin(parts, '/');
  }

  lemma BadPartIsBad(parts: seq<string>, j: nat)
    requires j < |parts| && (forall p | p in parts :: '*' !in p) && NextList(parts[j], false).Err?
    ensures Collect(parts, NoWildcard, false).Err?
  {
    assert parts[|parts| - 1] in parts;
    assert !IsStar(parts[|parts| - 1]);
    AcceptedExactly(parts, false);
  }

  /** A derivation with a part that is neither a step nor a final wildcard is rejected, wherever it stands. */
  lemma BadPartRejects(parts: seq<string>, j: nat)
    requires j < |parts| && (forall p | p in parts :: '/' !in p && '*' !in p)
    requires NextList(parts[j], false).Err?
    ensures Parse(Join(parts, '/')).Err?
  {
    SplitOfParts(parts);
    BadPartIsBad(parts, j);
  }

  /** The derivations the tests of the program expect to be rejected for an empty index. */
  lemma EmptyIndexRejected(front: seq<string>, before: seq<string>, after: seq<string>)
    requires forall p | p in front :: '/' !in p && '*' !in p
    requires forall p | p in before + after :: ';' !in p && '/' !in p && '*' !in p
    ensures Parse(Join(front + ["<" + Join(before + [""] + after, ';') + ">"], '/')).Err?
  {
    var ps := before + [""] + after;
    var step := "<" + Join(ps, ';') + ">";
    var parts := front + [step];
    forall p | p in ps ensures ';' !in p && '/' !in p && '*' !in p {
      assert p == "" || p in before + after;
    }
    JoinMembers(ps, ';', '/');
    JoinMembers(ps, ';', '*');
    assert "" in ps by { assert ps[|before|] == ""; }
    EmptyIsNoChild();
    MultiStepAccepted(ps);
    assert parts[|front|] == step;
    BadPartRejects(parts, |front|);
  }
}
