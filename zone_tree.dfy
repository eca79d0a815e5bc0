/**
 * The parse tree of ZoneIdPrinterParser: the ids ordered by LENGTH_SORT
 * (shortest first, then String.compareTo), and the SubstringTree built from
 * them, in which each node maps the substrings of its length to a node for
 * the longer ids that start with that substring.
 */
module ZoneTree {
  import opened Common

  // ---- LENGTH_SORT ----

  /** String.compareTo: the difference of the first differing characters, else of the lengths. */
  function CompareTo(a: string, b: string): int
  {
    if a == [] || b == [] then |a| - |b|
    else if a[0] != b[0] then a[0] as int - b[0] as int
    else CompareTo(a[1..], b[1..])
  }

  /** LENGTH_SORT.compare: by length, and compareTo between strings of one length. */
  function LengthSort(str1: string, str2: string): (c: int)
    ensures c < 0 ==> |str1| <= |str2|
  {
    if |str1| == |str2| then CompareTo(str1, str2) else |str1| - |str2|
  }

  lemma {:induction false} CompareToAntisymmetric(a: string, b: string)
    ensures CompareTo(a, b) == -CompareTo(b, a)
  {
    if a != [] && b != [] && a[0] == b[0] {
      CompareToAntisymmetric(a[1..], b[1..]);
    }
  }

  lemma {:induction false} CompareToZero(a: string, b: string)
    ensures CompareTo(a, b) == 0 <==> a == b
  {
    if a != [] && b != [] && a[0] == b[0] {
      CompareToZero(a[1..], b[1..]);
      assert a == [a[0]] + a[1..] && b == [b[0]] + b[1..];
    } else if a != [] && b != [] {
      assert a[0] != b[0];
    }
  }

  lemma {:induction false} CompareToTransitive(a: string, b: string, c: string)
    requires CompareTo(a, b) < 0 && CompareTo(b, c) < 0
    ensures CompareTo(a, c) < 0
  {
    if a != [] && b != [] && c != [] && a[0] == b[0] && b[0] == c[0] {
      CompareToTransitive(a[1..], b[1..], c[1..]);
    }
  }

  /** LENGTH_SORT is a total order: antisymmetric, zero only on equal strings, and transitive. */
  lemma {:induction false} LengthSortOrder(a: string, b: string, c: string)
    ensures LengthSort(a, b) == -LengthSort(b, a)
    ensures LengthSort(a, b) == 0 <==> a == b
    ensures LengthSort(a, b) < 0 && LengthSort(b, c) < 0 ==> LengthSort(a, c) < 0
  {
    CompareToAntisymmetric(a, b);
    CompareToZero(a, b);
    if LengthSort(a, b) < 0 && LengthSort(b, c) < 0 && |a| == |b| == |c| {
      CompareToTransitive(a, b, c);
    }
  }

  // ---- Collections.sort(ids, LENGTH_SORT) ----

  predicate SortedByLength(s: seq<string>)
  {
    forall i, j :: 0 <= i < j < |s| ==> LengthSort(s[i], s[j]) <= 0
  }

  /** Insert into a sorted list after every element that LENGTH_SORT puts before it. */
  function Insert(x: string, s: seq<string>): (r: seq<string>)
    ensures multiset(r) == multiset(s) + multiset{x}
  {
    if s == [] then [x]
    else if LengthSort(x, s[0]) <= 0 then [x] + s
    else
      assert s == [s[0]] + s[1..];
      [s[0]] + Insert(x, s[1..])
  }

  lemma {:induction false} InsertSorted(x: string, s: seq<string>)
    requires SortedByLength(s)
    ensures SortedByLength(Insert(x, s))
  {
    if s == [] {
    } else if LengthSort(x, s[0]) <= 0 {
      InsertFront(x, s);
    } else {
      assert SortedByLength(s[1..]) by {
        forall i, j | 0 <= i < j < |s[1..]| ensures LengthSort(s[1..][i], s[1..][j]) <= 0 {
          assert s[1..][i] == s[i + 1] && s[1..][j] == s[j + 1];
        }
      }
      InsertSorted(x, s[1..]);
      InsertBehind(x, s, Insert(x, s[1..]));
    }
  }

  /** An element that goes before the first goes before every element. */
  lemma {:induction false} InsertFront(x: string, s: seq<string>)
    requires SortedByLength(s) && s != [] && LengthSort(x, s[0]) <= 0
    ensures SortedByLength([x] + s)
  {
    hide LengthSort;
    var r := [x] + s;
    forall i, j | 0 <= i < j < |r| ensures LengthSort(r[i], r[j]) <= 0 {
      if i == 0 && j > 1 {
        LengthSortOrder(x, s[0], s[j - 1]);
        LengthSortOrder(s[0], s[j - 1], s[j - 1]);
      } else if i > 0 {
        assert r[i] == s[i - 1] && r[j] == s[j - 1];
      }
    }
  }

  /** The first element stays in front of the sorted insertion into the rest. */
  lemma {:induction false} InsertBehind(x: string, s: seq<string>, t: seq<string>)
    requires SortedByLength(s) && s != [] && LengthSort(x, s[0]) > 0
    requires SortedByLength(t) && multiset(t) == multiset(s[1..]) + multiset{x}
    ensures SortedByLength([s[0]] + t)
  {
    hide LengthSort;
    var r := [s[0]] + t;
    forall j | 0 < j < |r| ensures LengthSort(s[0], r[j]) <= 0 {
      assert r[j] == t[j - 1];
      assert r[j] in multiset(t);
      if r[j] == x {
        LengthSortOrder(x, s[0], s[0]);
      } else {
        assert r[j] in multiset(s[1..]);
        var k :| 0 <= k < |s[1..]| && s[1..][k] == r[j];
        assert s[k + 1] == r[j];
      }
    }
    forall i, j | 0 <= i < j < |r| ensures LengthSort(r[i], r[j]) <= 0 {
      if i > 0 {
        assert r[i] == t[i - 1] && r[j] == t[j - 1];
      }
    }
  }

  /** The list Collections.sort leaves: the ids in LENGTH_SORT order. */
  function SortByLength(ids: seq<string>): (r: seq<string>)
    ensures multiset(r) == multiset(ids)
  {
    if ids == [] then []
    else
      assert ids == [ids[0]] + ids[1..];
      Insert(ids[0], SortByLength(ids[1..]))
  }

  lemma {:induction false} SortByLengthSorted(ids: seq<string>)
    ensures SortedByLength(SortByLength(ids))
  {
    if ids != [] {
      SortByLengthSorted(ids[1..]);
      InsertSorted(ids[0], SortByLength(ids[1..]));
    }
  }

  // ---- SubstringTree ----

  /** A node: its length and the map of substrings of that length to the subtree for longer ids (None for null). */
  datatype SubstringTree = SubstringTree(length: nat, substringMap: map<string, Option<SubstringTree>>)

  /** Every key has the node's length, and every subtree is longer and valid itself. */
  predicate TreeValid(t: SubstringTree)
  {
    forall k :: k in t.substringMap ==>
      |k| == t.length &&
      (t.substringMap[k].Some? ==> t.substringMap[k].value.length > t.length && TreeValid(t.substringMap[k].value))
  }

  /** get(substring): the subtree for the substring; a missing key and a null value are both None. */
  function Get(t: SubstringTree, substring: string): Option<SubstringTree>
  {
    if substring in t.substringMap then t.substringMap[substring] else None
  }

  /**
   * add(newSubstring): an id of the node's length becomes a key with null;
   * a longer one is added to the subtree of its prefix, made with the id's
   * length when there is none; a shorter one is ignored.
   */
  function Add(t: SubstringTree, newSubstring: string): (r: SubstringTree)
    requires TreeValid(t)
    ensures TreeValid(r) && r.length == t.length
    decreases |newSubstring| - t.length
  {
    var idLen := |newSubstring|;
    if idLen == t.length then t.(substringMap := t.substringMap[newSubstring := None])
    else if idLen > t.length then
      var substring := newSubstring[..t.length];
      var parserTree := match Get(t, substring) case Some(c) => c case None => SubstringTree(idLen, map[]);
      t.(substringMap := t.substringMap[substring := Some(Add(parserTree, newSubstring))])
    else t
  }

  /** The tree after adding the ids in order. */
  function AddAll(t: SubstringTree, ids: seq<string>): (r: SubstringTree)
    requires TreeValid(t)
    ensures TreeValid(r) && r.length == t.length
  {
    if ids == [] then t else Add(AddAll(t, ids[..|ids| - 1]), ids[|ids| - 1])
  }

  /** prepareParser: the ids sorted, a root of the shortest length, every id added; no ids is ids.get(0) failing. */
  function PreparedTree(availableIDs: seq<string>): Result<SubstringTree>
  {
    var ids := SortByLength(availableIDs);
    if ids == [] then Err(IndexOutOfBounds) else Ok(AddAll(SubstringTree(|ids[0]|, map[]), ids))
  }

  /** prepareParser, with the loop of add calls. */
  method PrepareParser(availableIDs: seq<string>) returns (r: Result<SubstringTree>)
    ensures r == PreparedTree(availableIDs)
  {
    hide Add, AddAll, SortByLength;
    var ids := SortByLength(availableIDs);
    if |ids| == 0 {
      return Err(IndexOutOfBounds);
    }
    var root := SubstringTree(|ids[0]|, map[]);
    var tree := root;
    AddAllPrefix(root, ids, 0);
    for i := 0 to |ids|
      invariant TreeValid(tree) && tree == AddAll(root, ids[..i])
    {
      AddAllPrefix(root, ids, i + 1);
      tree := Add(tree, ids[i]);
    }
    assert ids[..|ids|] == ids;
    return Ok(tree);
  }

  /** Adding a prefix of the ids: none for the empty prefix, then one more at a time. */
  lemma {:induction false} AddAllPrefix(t: SubstringTree, ids: seq<string>, i: nat)
    requires TreeValid(t) && i <= |ids|
    ensures i == 0 ==> AddAll(t, ids[..i]) == t
    ensures i > 0 ==> AddAll(t, ids[..i]) == Add(AddAll(t, ids[..i - 1]), ids[i - 1])
  {
    hide Add;
    if i > 0 {
      assert ids[..i][..i - 1] == ids[..i - 1];
    }
  }

  // ---- what the tree holds ----

  /** The walk for `id` reaches a key equal to it: each prefix of a node's length leads to the next node. */
  predicate Reaches(t: SubstringTree, id: string)
  {
    |id| >= t.length && id[..t.length] in t.substringMap &&
    (|id| > t.length ==> t.substringMap[id[..t.length]].Some? && Reaches(t.substringMap[id[..t.length]].value, id))
  }

  /** No node of the tree is longer than `n`. */
  predicate LengthsAtMost(t: SubstringTree, n: nat)
  {
    t.length <= n && forall k :: k in t.substringMap && t.substringMap[k].Some? ==> LengthsAtMost(t.substringMap[k].value, n)
  }

  /** Adding an id at least as long as every node keeps what the tree reached. */
  lemma {:induction false} AddKeeps(t: SubstringTree, newSubstring: string, id: string)
    requires TreeValid(t) && LengthsAtMost(t, |newSubstring|) && Reaches(t, id)
    ensures Reaches(Add(t, newSubstring), id)
    decreases |newSubstring| - t.length
  {
    var r := Add(t, newSubstring);
    var k := id[..t.length];
    if |newSubstring| > t.length && k == newSubstring[..t.length] && |id| > t.length {
      var c := t.substringMap[k].value;
      AddKeeps(c, newSubstring, id);
    }
  }

  /** Adding an id at least as long as every node makes the tree reach it. */
  lemma {:induction false} AddReaches(t: SubstringTree, newSubstring: string)
    requires TreeValid(t) && LengthsAtMost(t, |newSubstring|)
    ensures Reaches(Add(t, newSubstring), newSubstring)
    decreases |newSubstring| - t.length
  {
    if |newSubstring| > t.length {
      var substring := newSubstring[..t.length];
      var parserTree := match Get(t, substring) case Some(c) => c case None => SubstringTree(|newSubstring|, map[]);
      AddReaches(parserTree, newSubstring);
    } else {
      assert newSubstring[..t.length] == newSubstring;
    }
  }

  /** Adding an id no longer than `n` keeps every node at most `n` long. */
  lemma {:induction false} AddBounded(t: SubstringTree, newSubstring: string, n: nat)
    requires TreeValid(t) && LengthsAtMost(t, n) && |newSubstring| <= n
    ensures LengthsAtMost(Add(t, newSubstring), n)
    decreases |newSubstring| - t.length
  {
    if |newSubstring| > t.length {
      var substring := newSubstring[..t.length];
      var parserTree := match Get(t, substring) case Some(c) => c case None => SubstringTree(|newSubstring|, map[]);
      AddBounded(parserTree, newSubstring, n);
    }
  }

  /** Ids added from the shortest up are all reached, and no node outgrows the longest of them. */
  lemma {:induction false} AddAllReaches(t: SubstringTree, ids: seq<string>)
    requires TreeValid(t) && forall i, j :: 0 <= i < j < |ids| ==> |ids[i]| <= |ids[j]|
    requires ids != [] ==> LengthsAtMost(t, |ids[0]|) && t.length <= |ids[0]|
    ensures ids != [] ==> LengthsAtMost(AddAll(t, ids), |ids[|ids| - 1]|)
    ensures forall i :: 0 <= i < |ids| ==> Reaches(AddAll(t, ids), ids[i])
  {
    if ids != [] {
      var init := ids[..|ids| - 1];
      var last := ids[|ids| - 1];
      var prev := AddAll(t, init);
      AddAllReaches(t, init);
      assert LengthsAtMost(prev, |last|) by {
        if init != [] {
          LengthsAtMostGrow(prev, |init[|init| - 1]|, |last|);
        } else {
          LengthsAtMostGrow(t, |ids[0]|, |last|);
        }
      }
      AddBounded(prev, last, |last|);
      AddReaches(prev, last);
      forall i | 0 <= i < |init| ensures Reaches(Add(prev, last), ids[i]) {
        assert init[i] == ids[i];
        AddKeeps(prev, last, ids[i]);
      }
    }
  }

  lemma {:induction false} LengthsAtMostGrow(t: SubstringTree, n: nat, m: nat)
    requires LengthsAtMost(t, n) && n <= m
    ensures LengthsAtMost(t, m)
    decreases t
  {
    forall k | k in t.substringMap && t.substringMap[k].Some? ensures LengthsAtMost(t.substringMap[k].value, m) {
      LengthsAtMostGrow(t.substringMap[k].value, n, m);
    }
  }

  /** The tree prepareParser builds reaches every available id. */
  lemma {:induction false} PreparedTreeReaches(availableIDs: seq<string>, id: string)
    requires id in availableIDs
    ensures PreparedTree(availableIDs).Ok? && TreeValid(PreparedTree(availableIDs).value)
    ensures Reaches(PreparedTree(availableIDs).value, id)
  {
    var ids := SortByLength(availableIDs);
    assert id in multiset(ids);
    SortByLengthSorted(availableIDs);
    assert forall i, j :: 0 <= i < j < |ids| ==> |ids[i]| <= |ids[j]| by {
      forall i, j | 0 <= i < j < |ids| ensures |ids[i]| <= |ids[j]| {
        assert LengthSort(ids[i], ids[j]) <= 0;
        LengthSortOrder(ids[i], ids[j], ids[j]);
      }
    }
    var root := SubstringTree(|ids[0]|, map[]);
    AddAllReaches(root, ids);
  }

  // ---- the walk of parse ----

  /** The text at `position` starts with `s`. */
  predicate PrefixAt(text: string, position: nat, s: string)
  {
    position + |s| <= |text| && text[position..position + |s|] == s
  }

  /**
   * The walk as written: take the substring of each node's length and go to
   * its subtree while there is one; the result is the last substring taken,
   * whether or not it is an id.
   */
  function WalkAsWritten(t: SubstringTree, text: string, position: nat, parsed: Option<string>): (r: Option<string>)
    requires position <= |text|
    ensures r == parsed || (r.Some? && PrefixAt(text, position, r.value))
  {
    if position + t.length > |text| then parsed
    else
      var substring := text[position..position + t.length];
      match Get(t, substring)
      case None => Some(substring)
      case Some(c) => WalkAsWritten(c, text, position, Some(substring))
  }

  /**
   * The walk as intended: the same path, remembering the last substring
   * taken that is one of the region ids.
   */
  function Walk(t: SubstringTree, regionIds: seq<string>, text: string, position: nat, best: Option<string>): (r: Option<string>)
    requires TreeValid(t) && position <= |text|
    ensures r == best || (r.Some? && r.value in regionIds && PrefixAt(text, position, r.value) && |r.value| >= t.length)
  {
    if position + t.length > |text| then best
    else
      var substring := text[position..position + t.length];
      var best2 := if substring in regionIds then Some(substring) else best;
      match Get(t, substring)
      case None => best2
      case Some(c) => Walk(c, regionIds, text, position, best2)
  }

  /** The walk finds an id at least as long as any reached region id the text starts with. */
  lemma {:induction false} WalkFinds(t: SubstringTree, regionIds: seq<string>, text: string, position: nat, best: Option<string>, z: string)
    requires TreeValid(t) && position <= |text|
    requires Reaches(t, z) && z in regionIds && PrefixAt(text, position, z)
    ensures var r := Walk(t, regionIds, text, position, best); r.Some? && |r.value| >= |z|
    decreases t
  {
    var substring := text[position..position + t.length];
    assert substring == z[..t.length];
    if |z| > t.length {
      WalkFinds(t.substringMap[substring].value, regionIds, text, position, if substring in regionIds then Some(substring) else best, z);
    } else {
      assert substring == z;
    }
  }

  /**
   * With the tree of prepareParser, the walk gives the longest region id
   * that the text starts with: it is one, and none is longer.
   */
  lemma {:induction false} WalkLongest(regionIds: seq<string>, text: string, position: nat, z: string)
    requires z in regionIds && PrefixAt(text, position, z)
    ensures PreparedTree(regionIds).Ok?
    ensures var r := Walk(PreparedTree(regionIds).value, regionIds, text, position, None);
      r.Some? && r.value in regionIds && PrefixAt(text, position, r.value) && |r.value| >= |z|
  {
    PreparedTreeReaches(regionIds, z);
    WalkFinds(PreparedTree(regionIds).value, regionIds, text, position, None, z);
  }

  /** The walk only gives region ids the text starts with. */
  lemma {:induction false} WalkSound(t: SubstringTree, regionIds: seq<string>, text: string, position: nat)
    requires TreeValid(t) && position <= |text|
    ensures var r := Walk(t, regionIds, text, position, None);
      r.Some? ==> r.value in regionIds && PrefixAt(text, position, r.value)
  {
  }

  /**
   * The walk as written loses a shorter id on the way: with EST and EST5EDT,
   * "EST 2011" walks to "EST 201", which is no id, while "EST" is one.
   */
  lemma {:induction false} WalkAsWrittenLosesShorterId()
    ensures var ids := ["EST", "EST5EDT"];
      PreparedTree(ids) == Ok(EstTree()) &&
      WalkAsWritten(EstTree(), "EST 2011", 0, None) == Some("EST 201") &&
      "EST 201" !in ids &&
      Walk(EstTree(), ids, "EST 2011", 0, None) == Some("EST")
  {
    hide Add, AddAll, SortByLength;
    EstSorted();
    EstTreeBuilt();
    var text := "EST 2011";
    assert text[0..3] == "EST" && text[0..7] == "EST 201";
  }

  /** The tree for the ids EST and EST5EDT. */
  function EstTree(): SubstringTree
  {
    SubstringTree(3, map["EST" := Some(SubstringTree(7, map["EST5EDT" := None]))])
  }

  lemma {:induction false} EstSorted()
    ensures SortByLength(["EST", "EST5EDT"]) == ["EST", "EST5EDT"]
  {
    var ids := ["EST", "EST5EDT"];
    assert LengthSort("EST", "EST5EDT") < 0;
    assert ids[1..] == ["EST5EDT"];
    assert SortByLength(["EST5EDT"]) == ["EST5EDT"] by {
      assert ["EST5EDT"][1..] == [];
    }
  }

  lemma {:induction false} EstTreeBuilt()
    ensures AddAll(SubstringTree(3, map[]), ["EST", "EST5EDT"]) == EstTree()
  {
    var root := SubstringTree(3, map[]);
    var t1 := Add(root, "EST");
    assert t1 == SubstringTree(3, map["EST" := None]);
    assert ["EST", "EST5EDT"][..1] == ["EST"];
    assert AddAll(root, ["EST"]) == t1 by {
      assert ["EST"][..0] == [];
    }
    assert "EST5EDT"[..3] == "EST";
    var t7 := SubstringTree(7, map["EST5EDT" := None]);
    assert Add(SubstringTree(7, map[]), "EST5EDT") == t7;
    assert Add(t1, "EST5EDT") == EstTree();
  }
}
