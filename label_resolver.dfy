/** The label heuristic of the form scanner: walk up from a field, looking at the
    element itself and then at its preceding element siblings, one ancestor level at
    a time, for a LABEL element; keep the first run of ASCII letters of its text. */
module LabelResolver {
  import opened JsText
  import opened Dom

  predicate IsLabelAt(root: Node, p: Path) {
    NodeAt(root, p).Some? && NodeAt(root, p).value.Element? && NodeAt(root, p).value.tag == LabelTag
  }

  /** The nearest LABEL among the children of the element at `parent` whose index is
      below `j`, scanning backwards from `j - 1`. Text nodes are never labels, so
      scanning all siblings equals scanning element siblings. */
  function PrevLabelSibling(root: Node, parent: Path, j: nat): Option<nat>
    decreases j
  {
    if j == 0 then None
    else if IsLabelAt(root, parent + [j - 1]) then Some(j - 1)
    else PrevLabelSibling(root, parent, j - 1)
  }

  /** Where `searchLabelUpwards` ends up, level by level. */
  function LabelUpwards(root: Node, p: Path): Option<Path>
    decreases |p|
  {
    if IsLabelAt(root, p) then Some(p)
    else if p == [] then None
    else match PrevLabelSibling(root, Parent(p), Last(p))
      case Some(k) => Some(Parent(p) + [k])
      case None => LabelUpwards(root, Parent(p))
  }

  /** `searchLabelUpwards(inputElem)`: the outer loop climbs through `parentElement`
      until the document element's null parent; the inner loop follows
      `previousElementSibling`. */
  method SearchLabelUpwards(root: Node, input: Path) returns (r: Option<Path>)
    requires IsElementAt(root, input)
    ensures r == LabelUpwards(root, input)
  {
    var elem: Option<Path> := Some(input);
    while elem.Some?
      invariant elem.Some? ==> LabelUpwards(root, elem.value) == LabelUpwards(root, input)
      invariant elem.None? ==> LabelUpwards(root, input) == None
      decreases if elem.Some? then |elem.value| + 1 else 0
    {
      var e := elem.value;
      if IsLabelAt(root, e) {
        return Some(e);
      }
      if e != [] {
        var parent := Parent(e);
        var k: nat := Last(e);
        while k > 0
          invariant k <= Last(e)
          invariant PrevLabelSibling(root, parent, k) == PrevLabelSibling(root, parent, Last(e))
        {
          if IsLabelAt(root, parent + [k - 1]) {
            return Some(parent + [k - 1]);
          }
          k := k - 1;
        }
        assert LabelUpwards(root, e) == LabelUpwards(root, parent);
        elem := Some(parent);
      } else {
        elem := None;
      }
    }
    return None;
  }

  lemma {:induction false} PrevLabelSiblingSpec(root: Node, parent: Path, j: nat)
    ensures PrevLabelSibling(root, parent, j).Some? ==>
      var k := PrevLabelSibling(root, parent, j).value;
      k < j && IsLabelAt(root, parent + [k]) &&
      forall i :: k < i < j ==> !IsLabelAt(root, parent + [i])
    ensures PrevLabelSibling(root, parent, j).None? ==>
      forall i :: 0 <= i < j ==> !IsLabelAt(root, parent + [i])
    decreases j
  {
    if j > 0 && !IsLabelAt(root, parent + [j - 1]) {
      PrevLabelSiblingSpec(root, parent, j - 1);
    }
  }

  /** `q` is a sibling that comes before one of the ancestors-or-self of `p`. */
  predicate PrecedesAncestor(p: Path, q: Path) {
    q != [] && |q| <= |p| && q[..|q| - 1] == p[..|q| - 1] && q[|q| - 1] < p[|q| - 1]
  }

  /** `q`, reached by the walk from `p`, is a label; it is `p`, one of its ancestors,
      or an earlier sibling of one of them; and nothing the walk visits before it is
      a label: no element on the way up, no earlier sibling of the levels below it,
      and no sibling between it and the ancestor on its own level. */
  predicate WalkFinds(root: Node, p: Path, q: Path) {
    IsLabelAt(root, q) && ((|q| <= |p| && p[..|q|] == q) || PrecedesAncestor(p, q)) &&
    (forall m :: |q| <= m <= |p| && p[..m] != q ==> !IsLabelAt(root, p[..m])) &&
    (forall m, k :: |q| <= m < |p| && k < p[m] ==> !IsLabelAt(root, p[..m] + [k])) &&
    (q != [] && p[..|q|] != q ==> forall k :: q[|q| - 1] < k < p[|q| - 1] ==> !IsLabelAt(root, q[..|q| - 1] + [k]))
  }

  /** The label the walk finds is the first label it visits. */
  lemma {:induction false} LabelUpwardsFound(root: Node, p: Path)
    requires LabelUpwards(root, p).Some?
    ensures WalkFinds(root, p, LabelUpwards(root, p).value)
    decreases |p|
  {
    if IsLabelAt(root, p) {
      assert p[..|p|] == p;
    } else {
      PrevLabelSiblingSpec(root, Parent(p), Last(p));
      match PrevLabelSibling(root, Parent(p), Last(p))
      case Some(k) =>
        SiblingFound(root, p, k);
      case None =>
        LabelUpwardsFound(root, Parent(p));
        ParentFound(root, p, LabelUpwards(root, Parent(p)).value);
    }
  }

  /** A label among the earlier siblings of `p`, with no label between it and `p`. */
  lemma SiblingFound(root: Node, p: Path, k: nat)
    requires p != [] && !IsLabelAt(root, p) && k < Last(p)
    requires IsLabelAt(root, Parent(p) + [k])
    requires forall i :: k < i < Last(p) ==> !IsLabelAt(root, Parent(p) + [i])
    ensures WalkFinds(root, p, Parent(p) + [k])
  {
    var q := Parent(p) + [k];
    assert q[..|q| - 1] == Parent(p) && |q| == |p|;
    assert p[..|p|] == p;
  }

  /** A label the walk finds from the parent of `p`, when `p` and its earlier
      siblings are no labels. */
  lemma ParentFound(root: Node, p: Path, q: Path)
    requires p != [] && !IsLabelAt(root, p)
    requires forall i :: 0 <= i < Last(p) ==> !IsLabelAt(root, Parent(p) + [i])
    requires WalkFinds(root, Parent(p), q)
    ensures WalkFinds(root, p, q)
  {
    var pp := Parent(p);
    assert p[..|p|] == p;
    assert forall m :: 0 <= m <= |pp| ==> pp[..m] == p[..m];
    assert forall m :: 0 <= m < |pp| ==> pp[m] == p[m];
    assert |q| <= |pp|;
    assert p[..|q|] == pp[..|q|];
    if PrecedesAncestor(pp, q) {
      assert p[|q| - 1] == pp[|q| - 1];
    }
    forall m, k | |pp| <= m < |p| && k < p[m] ensures !IsLabelAt(root, p[..m] + [k]) {
      assert m == |pp| && p[..m] == pp;
    }
  }

  /** No label is found only when there is none on any level of the walk. */
  lemma {:induction false} LabelUpwardsNone(root: Node, p: Path)
    requires LabelUpwards(root, p).None?
    ensures forall m :: 0 <= m <= |p| ==> !IsLabelAt(root, p[..m])
    ensures forall m, k :: 0 <= m < |p| && k < p[m] ==> !IsLabelAt(root, p[..m] + [k])
    decreases |p|
  {
    assert p[..|p|] == p;
    if p != [] {
      var pp := Parent(p);
      var j := Last(p);
      PrevLabelSiblingSpec(root, pp, j);
      LabelUpwardsNone(root, pp);
      assert forall m :: 0 <= m <= |pp| ==> pp[..m] == p[..m];
      assert forall m :: 0 <= m < |pp| ==> pp[m] == p[m];
      forall m, k | |pp| <= m < |p| && k < p[m] ensures !IsLabelAt(root, p[..m] + [k]) {
        assert m == |pp| && p[..m] == pp;
      }
    }
  }

  function LetterRun(s: string): string {
    if s != [] && IsLetter(s[0]) then [s[0]] + LetterRun(s[1..]) else []
  }

  /** The first maximal run of ASCII letters in `s`, if there is one. */
  function FirstLetterRun(s: string): Option<string> {
    if s == [] then None
    else if IsLetter(s[0]) then Some(LetterRun(s))
    else FirstLetterRun(s[1..])
  }

  /** `w` is a maximal run of letters starting at `i`, with no letter before `i`. */
  predicate LetterRunAt(s: string, i: nat, w: string) {
    w != [] && i + |w| <= |s| && s[i..i + |w|] == w &&
    (forall j :: 0 <= j < |w| ==> IsLetter(w[j])) &&
    (forall j :: 0 <= j < i ==> !IsLetter(s[j])) &&
    (i + |w| == |s| || !IsLetter(s[i + |w|]))
  }

  lemma {:induction false} LetterRunSpec(s: string)
    ensures |LetterRun(s)| <= |s| && s[..|LetterRun(s)|] == LetterRun(s)
    ensures forall j :: 0 <= j < |LetterRun(s)| ==> IsLetter(LetterRun(s)[j])
    ensures |LetterRun(s)| == |s| || !IsLetter(s[|LetterRun(s)|])
  {
    if s != [] && IsLetter(s[0]) {
      LetterRunSpec(s[1..]);
    }
  }

  /** The first match of `[a-zA-Z]+` is the leftmost maximal run of letters; there is
      none exactly when the text has no letter. */
  lemma {:induction false} FirstLetterRunSpec(s: string)
    ensures FirstLetterRun(s).None? <==> forall j :: 0 <= j < |s| ==> !IsLetter(s[j])
    ensures FirstLetterRun(s).Some? ==> exists i :: LetterRunAt(s, i, FirstLetterRun(s).value)
  {
    if s != [] {
      if IsLetter(s[0]) {
        LetterRunSpec(s);
        assert LetterRunAt(s, 0, LetterRun(s));
      } else {
        FirstLetterRunSpec(s[1..]);
        assert forall j :: 1 <= j < |s| ==> s[j] == s[1..][j - 1];
        if FirstLetterRun(s[1..]).Some? {
          var w := FirstLetterRun(s[1..]).value;
          var i: nat :| LetterRunAt(s[1..], i, w);
          assert s[i + 1..i + 1 + |w|] == s[1..][i..i + |w|];
          assert LetterRunAt(s, i + 1, w);
        }
      }
    }
  }

  /** The `label` of a scanned field: the first letter run of the text of the label
      the walk finds, if any. */
  function FieldLabel(root: Node, p: Path): Option<string> {
    match LabelUpwards(root, p)
    case None => None
    case Some(q) => if NodeAt(root, q).Some? then FirstLetterRun(TextContent(NodeAt(root, q).value)) else None
  }
}
