/**
 The include-reach cost map of scripts/each-cost.py.

 Every file gets a bitmask of the build objects whose translation unit reaches it through
 includes; a change costs the number of distinct objects that reach any changed file.
*/
module CostMap {
  import opened Arithmetic
  import opened Wrappers

  // ---------------------------------------------------------------- bitmasks

  predicate Bit(mask: nat, k: nat) {
    if k == 0 then mask % 2 == 1 else Bit(mask / 2, k - 1)
  }

  function Or(a: nat, b: nat): nat {
    if a == 0 then b else if b == 0 then a
    else 2 * Or(a / 2, b / 2) + if a % 2 == 1 || b % 2 == 1 then 1 else 0
  }

  function PopCount(mask: nat): nat {
    if mask == 0 then 0 else mask % 2 + PopCount(mask / 2)
  }

  lemma {:induction false} ZeroHasNoBits(k: nat)
    ensures !Bit(0, k)
  {
    if k > 0 {
      ZeroHasNoBits(k - 1);
    }
  }

  lemma {:induction false} OrBit(a: nat, b: nat, k: nat)
    ensures Bit(Or(a, b), k) <==> Bit(a, k) || Bit(b, k)
  {
    if a == 0 || b == 0 {
      ZeroHasNoBits(k);
    } else if k > 0 {
      OrBit(a / 2, b / 2, k - 1);
    }
  }

  lemma {:induction false} ShiftBit(i: nat, k: nat)
    ensures Bit(Pow2(i), k) <==> k == i
  {
    if i == 0 {
      if k > 0 {
        ZeroHasNoBits(k - 1);
      }
    } else if k > 0 {
      ShiftBit(i - 1, k - 1);
    }
  }

  ghost function Shifted(s: set<nat>): set<nat> {
    set k | k in s :: k + 1
  }

  lemma InShifted(s: set<nat>, k: nat)
    ensures k in Shifted(s) <==> k > 0 && k - 1 in s
  {
    if k > 0 && k - 1 in s {
      assert (k - 1) + 1 in Shifted(s);
    }
  }

  /** The positions of the bits that are set. */
  ghost function Bits(mask: nat): set<nat> {
    if mask == 0 then {}
    else (if mask % 2 == 1 then {0} else {}) + Shifted(Bits(mask / 2))
  }

  lemma {:induction false} BitsAreBits(mask: nat, k: nat)
    ensures k in Bits(mask) <==> Bit(mask, k)
  {
    if mask == 0 {
      ZeroHasNoBits(k);
    } else {
      InShifted(Bits(mask / 2), k);
      if k > 0 {
        BitsAreBits(mask / 2, k - 1);
      }
    }
  }

  lemma {:induction false} ShiftedSize(s: set<nat>)
    ensures |Shifted(s)| == |s|
  {
    if s == {} {
      assert Shifted(s) == {};
    } else {
      var x :| x in s;
      ShiftedSize(s - {x});
      forall k: nat ensures k in Shifted(s) <==> k in Shifted(s - {x}) + {x + 1} {
        InShifted(s, k);
        InShifted(s - {x}, k);
      }
      assert Shifted(s) == Shifted(s - {x}) + {x + 1};
      InShifted(s - {x}, x + 1);
    }
  }

  /** The population count is the number of set bits. */
  lemma {:induction false} PopCountIsSize(mask: nat)
    ensures PopCount(mask) == |Bits(mask)|
  {
    if mask != 0 {
      var rest := Shifted(Bits(mask / 2));
      PopCountIsSize(mask / 2);
      ShiftedSize(Bits(mask / 2));
      InShifted(Bits(mask / 2), 0);
      if mask % 2 == 1 {
        assert Bits(mask) == {0} + rest;
      } else {
        assert Bits(mask) == rest;
      }
    }
  }

  // ---------------------------------------------------------------- the scanned tree

  /** A scanned file: its path components, and the raw targets of its quoted includes. */
  datatype File = File(parts: seq<string>, includes: seq<string>)

  type Edges = map<string, seq<string>>
  type Index = map<string, seq<string>>

  function Join(parts: seq<string>): string {
    if parts == [] then "" else if |parts| == 1 then parts[0] else parts[0] + "/" + Join(parts[1..])
  }

  /** Some file named `path` ends in the components that spell `target`. */
  ghost predicate HasSuffix(files: seq<File>, target: string, path: string) {
    exists f, i :: 0 <= f < |files| && 0 <= i < |files[f].parts| &&
                   path == Join(files[f].parts) && target == Join(files[f].parts[i..])
  }

  function Append(index: Index, key: string, path: string): Index {
    index[key := (if key in index then index[key] else []) + [path]]
  }

  predicate Finds(index: Index, target: string, path: string) {
    target in index && path in index[target]
  }

  lemma AppendFinds(index: Index, key: string, path: string, target: string, p: string)
    ensures Finds(Append(index, key, path), target, p) <==> Finds(index, target, p) || (target == key && p == path)
  {
  }

  /** Registers every suffix of a path, so that an include written against any root finds it. */
  method RegisterSuffixes(before: Index, parts: seq<string>, rel: string) returns (index: Index)
    ensures forall target, path :: Finds(index, target, path) <==>
              || Finds(before, target, path)
              || (path == rel && exists j :: 0 <= j < |parts| && target == Join(parts[j..]))
  {
    index := before;
    for i := 0 to |parts|
      invariant forall target, path :: Finds(index, target, path) <==>
        || Finds(before, target, path)
        || (path == rel && exists j :: 0 <= j < i && target == Join(parts[j..]))
    {
      var key := Join(parts[i..]);
      forall target, path
        ensures Finds(Append(index, key, rel), target, path) <==>
                Finds(index, target, path) || (target == key && path == rel)
      {
        AppendFinds(index, key, rel, target, path);
      }
      index := Append(index, key, rel);
    }
  }

  /** A file of the tree; where a path occurs twice, its last occurrence is the one that counts. */
  ghost predicate IsFile(files: seq<File>, path: string) {
    exists f :: 0 <= f < |files| && Join(files[f].parts) == path
  }

  ghost predicate LastNamed(files: seq<File>, f: nat, path: string) {
    && f < |files| && Join(files[f].parts) == path
    && forall g :: f < g < |files| ==> Join(files[g].parts) != path
  }

  ghost predicate EdgesOf(files: seq<File>, edges: Edges) {
    && (forall path :: path in edges <==> IsFile(files, path))
    && (forall f: nat, path :: LastNamed(files, f, path) ==> edges[path] == files[f].includes)
  }

  ghost predicate IndexOf(files: seq<File>, index: Index) {
    forall target, path :: Finds(index, target, path) <==> HasSuffix(files, target, path)
  }

  lemma IsFileNext(files: seq<File>, f: nat, path: string)
    requires f < |files|
    ensures IsFile(files[..f + 1], path) <==> IsFile(files[..f], path) || path == Join(files[f].parts)
  {
    var next := files[..f + 1];
    assert forall g :: 0 <= g < f ==> next[g] == files[..f][g];
    assert next[f] == files[f];
  }

  lemma EdgesNext(files: seq<File>, f: nat, edges: Edges)
    requires f < |files| && EdgesOf(files[..f], edges)
    ensures EdgesOf(files[..f + 1], edges[Join(files[f].parts) := files[f].includes])
  {
    var rel, next := Join(files[f].parts), files[..f + 1];
    forall path
      ensures path in edges[rel := files[f].includes] <==> IsFile(next, path)
    {
      IsFileNext(files, f, path);
    }
    forall g: nat, path | LastNamed(next, g, path)
      ensures edges[rel := files[f].includes][path] == next[g].includes
    {
      if g < f {
        assert next[f] == files[f] && path != rel;
        assert forall h :: g < h < f ==> next[h] == files[..f][h];
        assert LastNamed(files[..f], g, path);
      }
    }
  }

  method ScanTree(files: seq<File>) returns (edges: Edges, index: Index)
    ensures EdgesOf(files, edges) && IndexOf(files, index)
  {
    edges, index := map[], map[];
    for f := 0 to |files|
      invariant EdgesOf(files[..f], edges) && IndexOf(files[..f], index)
    {
      EdgesNext(files, f, edges);
      var rel := Join(files[f].parts);
      edges := edges[rel := files[f].includes];
      index := RegisterSuffixes(index, files[f].parts, rel);
      forall target, path
        ensures Finds(index, target, path) <==> HasSuffix(files[..f + 1], target, path)
      {
        SuffixOfNext(files, f, target, path);
      }
    }
    assert files[..|files|] == files;
  }

  lemma SuffixOfNext(files: seq<File>, f: nat, target: string, path: string)
    requires f < |files|
    ensures HasSuffix(files[..f + 1], target, path) <==>
            || HasSuffix(files[..f], target, path)
            || (path == Join(files[f].parts) &&
                exists j :: 0 <= j < |files[f].parts| && target == Join(files[f].parts[j..]))
  {
    var next := files[..f + 1];
    assert forall g :: 0 <= g < f ==> next[g] == files[..f][g];
    assert next[f] == files[f];
  }

  // ---------------------------------------------------------------- reach

  /** `b` is one include away from `a`: an ambiguous target counts for every file it may mean. */
  ghost predicate Includes(edges: Edges, index: Index, a: string, b: string) {
    a in edges && exists t :: t in edges[a] && t in index && b in index[t]
  }

  ghost predicate IsChain(edges: Edges, index: Index, chain: seq<string>) {
    && chain != []
    && forall i :: 0 <= i < |chain| - 1 ==> Includes(edges, index, chain[i], chain[i + 1])
  }

  ghost predicate Reaches(edges: Edges, index: Index, a: string, b: string) {
    exists chain :: IsChain(edges, index, chain) && chain[0] == a && chain[|chain| - 1] == b
  }

  lemma ReachesSelf(edges: Edges, index: Index, a: string)
    ensures Reaches(edges, index, a, a)
  {
    assert IsChain(edges, index, [a]);
  }

  lemma ReachesNext(edges: Edges, index: Index, a: string, b: string, c: string)
    requires Reaches(edges, index, a, b) && Includes(edges, index, b, c)
    ensures Reaches(edges, index, a, c)
  {
    var chain :| IsChain(edges, index, chain) && chain[0] == a && chain[|chain| - 1] == b;
    assert IsChain(edges, index, chain + [c]);
  }

  ghost predicate Closed(edges: Edges, index: Index, s: set<string>) {
    forall a, b :: a in s && Includes(edges, index, a, b) ==> b in s
  }

  lemma {:induction false} ChainStaysIn(edges: Edges, index: Index, s: set<string>, chain: seq<string>)
    requires Closed(edges, index, s) && IsChain(edges, index, chain) && chain[0] in s
    ensures chain[|chain| - 1] in s
    decreases |chain|
  {
    if |chain| > 1 {
      var front := chain[..|chain| - 1];
      assert IsChain(edges, index, front);
      ChainStaysIn(edges, index, s, front);
      assert Includes(edges, index, chain[|chain| - 2], chain[|chain| - 1]);
    }
  }

  /** Everything a search can ever see. */
  ghost function Universe(index: Index, start: string): set<string> {
    {start} + set t, i | t in index && 0 <= i < |index[t]| :: index[t][i]
  }

  predicate Distinct(s: seq<string>) {
    forall i, j :: 0 <= i < j < |s| ==> s[i] != s[j]
  }

  lemma DistinctConcat(a: seq<string>, b: seq<string>)
    requires Distinct(a) && Distinct(b) && forall p :: p in b ==> p !in a
    ensures Distinct(a + b)
  {
    var all := a + b;
    forall i, j | 0 <= i < j < |all| ensures all[i] != all[j] {
      if i < |a| <= j {
        assert all[j] == b[j - |a|] && b[j - |a|] in b;
      }
    }
  }

  /** One file's includes: every path they may mean that was not seen yet joins the queue. */
  method Expand(edges: Edges, index: Index, current: string, seen0: set<string>, queue0: seq<string>)
    returns (seen: set<string>, queue: seq<string>)
    ensures forall p :: p in seen <==> p in seen0 || Includes(edges, index, current, p)
    ensures queue0 <= queue
    ensures forall p :: p in queue[|queue0|..] <==> p in seen && p !in seen0
    ensures Distinct(queue[|queue0|..])
  {
    seen, queue := seen0, queue0;
    if current !in edges {
      return;
    }
    var targets := edges[current];
    for i := 0 to |targets|
      invariant forall p :: p in seen <==> p in seen0 || exists t :: t in targets[..i] && t in index && p in index[t]
      invariant queue0 <= queue
      invariant forall p :: p in queue[|queue0|..] <==> p in seen && p !in seen0
      invariant Distinct(queue[|queue0|..])
    {
      var t := targets[i];
      assert targets[..i + 1] == targets[..i] + [t];
      if t in index {
        ghost var before := seen;
        for j := 0 to |index[t]|
          invariant forall p :: p in seen <==> p in before || p in index[t][..j]
          invariant queue0 <= queue
          invariant forall p :: p in queue[|queue0|..] <==> p in seen && p !in seen0
          invariant Distinct(queue[|queue0|..])
        {
          var path := index[t][j];
          if path !in seen {
            seen := seen + {path};
            ghost var tail := queue[|queue0|..];
            queue := queue + [path];
            assert queue[|queue0|..] == tail + [path];
          }
        }
        assert index[t][..|index[t]|] == index[t];
      }
    }
    assert targets[..|targets|] == targets;
  }

  type Masks = map<string, nat>

  function MaskOf(masks: Masks, path: string): nat {
    if path in masks then masks[path] else 0
  }

  /** Breadth-first search from one translation unit: its bit joins the mask of every file it reaches. */
  method Spread(edges: Edges, index: Index, start: string, bit: nat, masks0: Masks) returns (masks: Masks)
    ensures forall p :: MaskOf(masks, p) ==
              if Reaches(edges, index, start, p) then Or(MaskOf(masks0, p), bit) else MaskOf(masks0, p)
  {
    masks := masks0;
    var seen := {start};
    var queue := [start];
    ghost var done: set<string> := {};
    ghost var universe := Universe(index, start);
    ReachesSelf(edges, index, start);
    while queue != []
      invariant start in seen && seen == done + (set p | p in queue)
      invariant Distinct(queue) && forall p :: p in queue ==> p !in done
      invariant seen <= universe
      invariant forall p :: p in seen ==> Reaches(edges, index, start, p)
      invariant forall a, b :: a in done && Includes(edges, index, a, b) ==> b in seen
      invariant forall p :: MaskOf(masks, p) == if p in done then Or(MaskOf(masks0, p), bit) else MaskOf(masks0, p)
      decreases universe - done
    {
      var current := queue[0];
      ghost var rest := queue[1..];
      assert queue == [current] + rest;
      assert current !in rest;
      assert current in seen;
      masks := masks[current := Or(MaskOf(masks, current), bit)];
      ghost var seenBefore := seen;
      forall p | Includes(edges, index, current, p)
        ensures Reaches(edges, index, start, p) && p in universe
      {
        ReachesNext(edges, index, start, current, p);
      }
      seen, queue := Expand(edges, index, current, seen, queue[1..]);
      done := done + {current};
      assert queue == rest + queue[|rest|..];
      DistinctConcat(rest, queue[|rest|..]);
    }
    assert Closed(edges, index, seen);
    forall p ensures Reaches(edges, index, start, p) <==> p in done {
      if Reaches(edges, index, start, p) {
        var chain :| IsChain(edges, index, chain) && chain[0] == start && chain[|chain| - 1] == p;
        ChainStaysIn(edges, index, seen, chain);
      }
    }
  }

  const SOURCE_SUFFIXES := [".cpp", ".cc", ".c"]

  /** The source file that compiles into an object, if it was scanned; objects end in `.o`. */
  function TranslationUnit(obj: string, edges: Edges): (r: Option<string>)
    requires |obj| >= 2
    ensures r.Some? ==> r.value in edges
  {
    var stem := "src/" + obj[..|obj| - 2];
    if stem + SOURCE_SUFFIXES[0] in edges then Some(stem + SOURCE_SUFFIXES[0])
    else if stem + SOURCE_SUFFIXES[1] in edges then Some(stem + SOURCE_SUFFIXES[1])
    else if stem + SOURCE_SUFFIXES[2] in edges then Some(stem + SOURCE_SUFFIXES[2])
    else None
  }

  /** Object k is compiled from a file that reaches `path`. */
  ghost predicate ObjectReaches(objects: seq<string>, edges: Edges, index: Index, k: nat, path: string)
    requires forall i :: 0 <= i < |objects| ==> |objects[i]| >= 2
  {
    && k < |objects|
    && var unit := TranslationUnit(objects[k], edges);
       unit.Some? && Reaches(edges, index, unit.value, path)
  }

  /** The masks say of the first n objects, and only of them, which files they reach. */
  ghost predicate MarksFirst(masks: Masks, n: nat, objects: seq<string>, edges: Edges, index: Index)
    requires forall i :: 0 <= i < |objects| ==> |objects[i]| >= 2
  {
    forall path, k: nat :: Bit(MaskOf(masks, path), k) <==> k < n && ObjectReaches(objects, edges, index, k, path)
  }

  lemma MarkNext(before: Masks, after: Masks, n: nat, objects: seq<string>, edges: Edges, index: Index)
    requires forall i :: 0 <= i < |objects| ==> |objects[i]| >= 2
    requires n < |objects| && MarksFirst(before, n, objects, edges, index)
    requires var unit := TranslationUnit(objects[n], edges);
             forall p :: MaskOf(after, p) == if unit.Some? && Reaches(edges, index, unit.value, p)
                                             then Or(MaskOf(before, p), Pow2(n)) else MaskOf(before, p)
    ensures MarksFirst(after, n + 1, objects, edges, index)
  {
    forall path, k: nat
      ensures Bit(MaskOf(after, path), k) <==> k < n + 1 && ObjectReaches(objects, edges, index, k, path)
    {
      OrBit(MaskOf(before, path), Pow2(n), k);
      ShiftBit(n, k);
      assert Bit(MaskOf(before, path), k) <==> k < n && ObjectReaches(objects, edges, index, k, path);
    }
  }

  /** One search per object; the objects without a translation unit are missing. */
  method MarkObjects(objects: seq<string>, edges: Edges, index: Index) returns (masks: Masks, missing: seq<string>)
    requires forall i :: 0 <= i < |objects| ==> |objects[i]| >= 2
    ensures forall path, k: nat :: Bit(MaskOf(masks, path), k) <==> ObjectReaches(objects, edges, index, k, path)
    ensures forall o :: o in missing <==>
            exists i :: 0 <= i < |objects| && o == objects[i] && TranslationUnit(o, edges).None?
  {
    masks, missing := map[], [];
    forall k: nat ensures !Bit(0, k) {
      ZeroHasNoBits(k);
    }
    for i := 0 to |objects|
      invariant MarksFirst(masks, i, objects, edges, index)
      invariant forall o :: o in missing <==>
                exists j :: 0 <= j < i && o == objects[j] && TranslationUnit(o, edges).None?
    {
      var unit := TranslationUnit(objects[i], edges);
      ghost var before := masks;
      if unit.None? {
        missing := missing + [objects[i]];
      } else {
        masks := Spread(edges, index, unit.value, Pow2(i), masks);
      }
      MarkNext(before, masks, i, objects, edges, index);
    }
    assert MarksFirst(masks, |objects|, objects, edges, index);
  }

  // ---------------------------------------------------------------- the tree itself

  /** File `a` of the tree includes a target that is spelled by the last components of file `b`. */
  ghost predicate IncludesFile(files: seq<File>, a: string, b: string) {
    exists f: nat, t :: LastNamed(files, f, a) && t in files[f].includes && HasSuffix(files, t, b)
  }

  ghost predicate IsFileChain(files: seq<File>, chain: seq<string>) {
    && chain != []
    && forall i :: 0 <= i < |chain| - 1 ==> IncludesFile(files, chain[i], chain[i + 1])
  }

  /** There is a chain of includes from one file to another. */
  ghost predicate FileReaches(files: seq<File>, a: string, b: string) {
    exists chain :: IsFileChain(files, chain) && chain[0] == a && chain[|chain| - 1] == b
  }

  lemma {:induction false} HasLast(files: seq<File>, f: nat, path: string) returns (last: nat)
    requires f < |files| && Join(files[f].parts) == path
    ensures LastNamed(files, last, path)
    decreases |files| - f
  {
    if g :| f < g < |files| && Join(files[g].parts) == path {
      last := HasLast(files, g, path);
    } else {
      last := f;
    }
  }

  lemma IncludesIsIncludesFile(files: seq<File>, edges: Edges, index: Index, a: string, b: string)
    requires EdgesOf(files, edges) && IndexOf(files, index)
    ensures Includes(edges, index, a, b) <==> IncludesFile(files, a, b)
  {
    if Includes(edges, index, a, b) {
      var t :| t in edges[a] && t in index && b in index[t];
      var f :| 0 <= f < |files| && Join(files[f].parts) == a;
      var last := HasLast(files, f, a);
      assert Finds(index, t, b);
    }
    if IncludesFile(files, a, b) {
      var f: nat, t :| LastNamed(files, f, a) && t in files[f].includes && HasSuffix(files, t, b);
      assert IsFile(files, a);
      assert Finds(index, t, b);
    }
  }

  /** The search over the scanned tables is reach in the tree. */
  lemma ReachesIsFileReaches(files: seq<File>, edges: Edges, index: Index, a: string, b: string)
    requires EdgesOf(files, edges) && IndexOf(files, index)
    ensures Reaches(edges, index, a, b) <==> FileReaches(files, a, b)
  {
    forall x, y
      ensures Includes(edges, index, x, y) <==> IncludesFile(files, x, y)
    {
      IncludesIsIncludesFile(files, edges, index, x, y);
    }
    forall chain
      ensures IsChain(edges, index, chain) <==> IsFileChain(files, chain)
    {
    }
  }

  /** The file of the tree that compiles into an object: the first suffix that is there. */
  ghost predicate CompilesInto(files: seq<File>, unit: string, obj: string)
    requires |obj| >= 2
  {
    exists i :: 0 <= i < |SOURCE_SUFFIXES| && unit == UnitName(obj, i) && IsFile(files, unit)
                && forall j :: 0 <= j < i ==> !IsFile(files, UnitName(obj, j))
  }

  function UnitName(obj: string, i: nat): string
    requires |obj| >= 2 && i < |SOURCE_SUFFIXES|
  {
    "src/" + obj[..|obj| - 2] + SOURCE_SUFFIXES[i]
  }

  lemma UnitCompilesInto(files: seq<File>, edges: Edges, obj: string, unit: string)
    requires EdgesOf(files, edges) && |obj| >= 2
    ensures TranslationUnit(obj, edges) == Some(unit) <==> CompilesInto(files, unit, obj)
  {
    assert UnitName(obj, 0) in edges <==> IsFile(files, UnitName(obj, 0));
    assert UnitName(obj, 1) in edges <==> IsFile(files, UnitName(obj, 1));
    assert UnitName(obj, 2) in edges <==> IsFile(files, UnitName(obj, 2));
  }

  /** Object k is compiled from a file with a chain of includes to `path`. */
  ghost predicate Rebuilds(objects: seq<string>, files: seq<File>, k: nat, path: string)
    requires forall i :: 0 <= i < |objects| ==> |objects[i]| >= 2
  {
    k < |objects| && exists unit :: CompilesInto(files, unit, objects[k]) && FileReaches(files, unit, path)
  }

  lemma ObjectReachesIsRebuilds(objects: seq<string>, files: seq<File>, edges: Edges, index: Index, k: nat,
                                path: string)
    requires forall i :: 0 <= i < |objects| ==> |objects[i]| >= 2
    requires EdgesOf(files, edges) && IndexOf(files, index)
    ensures ObjectReaches(objects, edges, index, k, path) <==> Rebuilds(objects, files, k, path)
  {
    if k < |objects| {
      forall unit
        ensures TranslationUnit(objects[k], edges) == Some(unit) <==> CompilesInto(files, unit, objects[k])
        ensures Reaches(edges, index, unit, path) <==> FileReaches(files, unit, path)
      {
        UnitCompilesInto(files, edges, objects[k], unit);
        ReachesIsFileReaches(files, edges, index, unit, path);
      }
    }
  }

  /** The whole map, in terms of the tree alone. */
  method BuildMap(objects: seq<string>, files: seq<File>) returns (masks: Masks, missing: seq<string>)
    requires forall i :: 0 <= i < |objects| ==> |objects[i]| >= 2
    ensures forall path, k: nat :: Bit(MaskOf(masks, path), k) <==> Rebuilds(objects, files, k, path)
    ensures forall o :: o in missing <==> o in objects && !exists unit :: CompilesInto(files, unit, o)
  {
    var edges, index := ScanTree(files);
    masks, missing := MarkObjects(objects, edges, index);
    forall path, k: nat
      ensures Bit(MaskOf(masks, path), k) <==> Rebuilds(objects, files, k, path)
    {
      ObjectReachesIsRebuilds(objects, files, edges, index, k, path);
    }
    forall o
      ensures o in missing <==> o in objects && !exists unit :: CompilesInto(files, unit, o)
    {
      if o in objects {
        var i :| 0 <= i < |objects| && objects[i] == o;
        forall unit
          ensures TranslationUnit(o, edges) == Some(unit) <==> CompilesInto(files, unit, o)
        {
          UnitCompilesInto(files, edges, o, unit);
        }
        assert TranslationUnit(o, edges).Some? ==> CompilesInto(files, TranslationUnit(o, edges).value, o);
      }
    }
  }

  // ---------------------------------------------------------------- the estimate

  /** The objects some changed path belongs to. */
  ghost function Invalidated(masks: Masks, paths: seq<string>): set<nat> {
    set i, k | 0 <= i < |paths| && k in Bits(MaskOf(masks, paths[i])) :: k
  }

  method Estimate(masks: Masks, paths: seq<string>) returns (r: nat)
    ensures r == |Invalidated(masks, paths)|
  {
    var combined := 0;
    for i := 0 to |paths|
      invariant Bits(combined) == Invalidated(masks, paths[..i])
    {
      ghost var before := combined;
      if paths[i] in masks {
        combined := Or(combined, masks[paths[i]]);
      }
      forall k ensures k in Bits(combined) <==> k in Invalidated(masks, paths[..i + 1]) {
        BitsAreBits(combined, k);
        BitsAreBits(before, k);
        BitsAreBits(MaskOf(masks, paths[i]), k);
        OrBit(before, MaskOf(masks, paths[i]), k);
        ZeroHasNoBits(k);
        InvalidatedNext(masks, paths, i, k);
      }
    }
    assert paths[..|paths|] == paths;
    PopCountIsSize(combined);
    r := PopCount(combined);
  }

  lemma InvalidatedNext(masks: Masks, paths: seq<string>, i: nat, k: nat)
    requires i < |paths|
    ensures k in Invalidated(masks, paths[..i + 1]) <==>
            k in Invalidated(masks, paths[..i]) || k in Bits(MaskOf(masks, paths[i]))
  {
    var next := paths[..i + 1];
    assert next[i] == paths[i];
    assert forall j :: 0 <= j < i ==> next[j] == paths[..i][j];
  }

  ghost predicate RebuildsForAny(objects: seq<string>, files: seq<File>, k: nat, paths: seq<string>)
    requires forall i :: 0 <= i < |objects| ==> |objects[i]| >= 2
  {
    exists i :: 0 <= i < |paths| && Rebuilds(objects, files, k, paths[i])
  }

  /** The estimate counts exactly the objects whose translation unit reaches a changed path. */
  lemma EstimateCountsObjects(objects: seq<string>, files: seq<File>, masks: Masks, paths: seq<string>)
    requires forall i :: 0 <= i < |objects| ==> |objects[i]| >= 2
    requires forall path, k: nat :: Bit(MaskOf(masks, path), k) <==> Rebuilds(objects, files, k, path)
    ensures Invalidated(masks, paths) == (set k | 0 <= k < |objects| && RebuildsForAny(objects, files, k, paths))
  {
    forall k: nat
      ensures k in Invalidated(masks, paths) <==> RebuildsForAny(objects, files, k, paths)
    {
      forall i | 0 <= i < |paths|
        ensures k in Bits(MaskOf(masks, paths[i])) <==> Rebuilds(objects, files, k, paths[i])
      {
        BitsAreBits(MaskOf(masks, paths[i]), k);
      }
    }
  }

  /** More changed paths never cost less. */
  lemma EstimateIsMonotone(masks: Masks, fewer: seq<string>, more: seq<string>)
    requires forall p :: p in fewer ==> p in more
    ensures |Invalidated(masks, fewer)| <= |Invalidated(masks, more)|
  {
    forall k | k in Invalidated(masks, fewer) ensures k in Invalidated(masks, more) {
      var i :| 0 <= i < |fewer| && k in Bits(MaskOf(masks, fewer[i]));
      assert fewer[i] in more;
      var j :| 0 <= j < |more| && more[j] == fewer[i];
    }
    SubsetSize(Invalidated(masks, fewer), Invalidated(masks, more));
  }

  /** Two changes together cost no more than one after the other. */
  lemma EstimateIsSubadditive(masks: Masks, a: seq<string>, b: seq<string>)
    ensures |Invalidated(masks, a + b)| <= |Invalidated(masks, a)| + |Invalidated(masks, b)|
  {
    var x, y := Invalidated(masks, a), Invalidated(masks, b);
    forall k | k in Invalidated(masks, a + b) ensures k in x + y {
      var i :| 0 <= i < |a + b| && k in Bits(MaskOf(masks, (a + b)[i]));
      assert i < |a| ==> (a + b)[i] == a[i];
      assert i >= |a| ==> (a + b)[i] == b[i - |a|];
    }
    SubsetSize(Invalidated(masks, a + b), x + y);
    assert x + y == x + (y - x);
    SubsetSize(y - x, y);
  }

  lemma {:induction false} SubsetSize(a: set<nat>, b: set<nat>)
    requires a <= b
    ensures |a| <= |b|
  {
    assert b == a + (b - a);
  }
}
