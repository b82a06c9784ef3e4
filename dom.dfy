/** A synthetic page: a tree of element and text nodes, addressed by paths of child
    indices from the document element. Tree order is preorder, and the DOM queries
    the extension uses (`getElementById`, `querySelector`, a `TreeWalker` over text,
    `document.forms`, `form.elements`) are searches over that order. */
module Dom {
  import opened JsText

  datatype Tag = FormTag | InputTag | TextAreaTag | LabelTag | OtherTag(name: string)

  /** An element carries the attributes and properties the extension reads: the
      `id` and `name` attributes (absent or present), the `type` property as the
      browser reports it, `placeholder` and, on a form, `action`. An element's
      current value is not part of the tree: it is page state (see FormFiller). */
  datatype Node =
    | Text(data: string)
    | Element(tag: Tag, idAttr: Option<string>, nameAttr: Option<string>, kind: string,
              placeholder: string, action: string, children: seq<Node>)

  /** Child indices from the document element; `[]` is the document element. */
  type Path = seq<nat>

  function NodeAt(n: Node, p: Path): Option<Node>
    decreases |p|
  {
    if p == [] then Some(n)
    else if n.Element? && p[0] < |n.children| then NodeAt(n.children[p[0]], p[1..])
    else None
  }

  /** The node at a path among a list of siblings, as if they were the children of
      an element that is not itself searched. */
  function NodeAtIn(cs: seq<Node>, p: Path): Option<Node> {
    if p != [] && p[0] < |cs| then NodeAt(cs[p[0]], p[1..]) else None
  }

  predicate IsElementAt(root: Node, p: Path) {
    NodeAt(root, p).Some? && NodeAt(root, p).value.Element?
  }

  function Parent(p: Path): Path
    requires p != []
  {
    p[..|p| - 1]
  }

  function Last(p: Path): nat
    requires p != []
  {
    p[|p| - 1]
  }

  lemma {:induction false} NodeAtAppend(n: Node, p: Path, q: Path)
    ensures NodeAt(n, p + q) == if NodeAt(n, p).Some? then NodeAt(NodeAt(n, p).value, q) else None
    decreases |p|
  {
    if p != [] {
      assert (p + q)[0] == p[0] && (p + q)[1..] == p[1..] + q;
      if n.Element? && p[0] < |n.children| {
        NodeAtAppend(n.children[p[0]], p[1..], q);
        assert NodeAt(n, p) == NodeAt(n.children[p[0]], p[1..]);
        assert NodeAt(n, p + q) == NodeAt(n.children[p[0]], p[1..] + q);
      } else {
        assert NodeAt(n, p) == None;
        assert NodeAt(n, p + q) == None;
      }
    } else {
      assert p + q == q;
    }
  }

  /** The node at `p + [k]` is the k-th child of the node at `p`. */
  lemma NodeAtChild(n: Node, p: Path, k: nat)
    ensures NodeAt(n, p + [k]) ==
      if IsElementAt(n, p) && k < |NodeAt(n, p).value.children| then Some(NodeAt(n, p).value.children[k])
      else None
  {
    NodeAtAppend(n, p, [k]);
  }

  lemma NodeAtElement(n: Node, p: Path)
    requires n.Element? && p != []
    ensures NodeAt(n, p) == NodeAtIn(n.children, p)
  {
  }

  /** Tree order: `r` comes before `p` when it is a proper ancestor of `p` or lies
      in an earlier sibling subtree of one of `p`'s ancestors. */
  predicate Before(r: Path, p: Path)
    decreases |p|
  {
    if p == [] then false
    else if r == [] then true
    else r[0] < p[0] || (r[0] == p[0] && Before(r[1..], p[1..]))
  }

  /** What a DOM query selects. */
  datatype Query =
    | ElementWithId(id: string)      // `#id` and `getElementById`
    | ElementWithName(name: string)  // `[name="..."]`
    | TextControl                    // `input, textarea`
    | TextContaining(text: string)   // text nodes whose data includes `text`
    | FormElement                    // members of `document.forms`
    | ListedElement                  // members of `form.elements`

  /** `s.includes(t)`: `t` occurs in `s` at some position. */
  predicate Contains(s: string, t: string)
    decreases |s|
  {
    |t| <= |s| && (s[..|t|] == t || Contains(s[1..], t))
  }

  /** `form.elements` lists buttons, fieldsets, inputs other than image buttons,
      objects, outputs, selects and textareas. */
  predicate IsListed(n: Node) {
    n.Element? &&
    match n.tag
    case InputTag => n.kind != "image"
    case TextAreaTag => true
    case OtherTag(name) =>
      name == "BUTTON" || name == "FIELDSET" || name == "OBJECT" || name == "OUTPUT" || name == "SELECT"
    case _ => false
  }

  predicate Matches(q: Query, n: Node) {
    match q
    case ElementWithId(v) => n.Element? && n.idAttr == Some(v)
    case ElementWithName(v) => n.Element? && n.nameAttr == Some(v)
    case TextControl => n.Element? && (n.tag == InputTag || n.tag == TextAreaTag)
    case TextContaining(t) => n.Text? && Contains(n.data, t)
    case FormElement => n.Element? && n.tag == FormTag
    case ListedElement => IsListed(n)
  }

  /** Whether enumeration looks inside `n`: the elements of a form nested in another
      form belong to the inner form. */
  predicate Descends(q: Query, n: Node) {
    n.Element? && !(q == ListedElement && n.tag == FormTag)
  }

  // ---------------------------------------------------------------------------
  // First match in tree order

  /** The first node of the subtree of `n` (n included) in tree order that `q` selects. */
  function FirstMatch(n: Node, q: Query): Option<Path>
    decreases n, 1
  {
    if Matches(q, n) then Some([])
    else if n.Text? then None
    else FirstMatchIn(n.children, q, 0)
  }

  /** The first match in the subtrees of `cs[i..]`, as a path from their parent. */
  function FirstMatchIn(cs: seq<Node>, q: Query, i: nat): Option<Path>
    decreases cs, |cs| - i
  {
    if i >= |cs| then None
    else match FirstMatch(cs[i], q)
      case Some(p) => Some([i] + p)
      case None => FirstMatchIn(cs, q, i + 1)
  }

  predicate SelectsAt(n: Node, q: Query, p: Path) {
    NodeAt(n, p).Some? && Matches(q, NodeAt(n, p).value)
  }

  predicate SelectsAtIn(cs: seq<Node>, q: Query, p: Path) {
    NodeAtIn(cs, p).Some? && Matches(q, NodeAtIn(cs, p).value)
  }

  /** FirstMatch finds a selected node with no selected node before it in tree order,
      and finds nothing only when nothing in the subtree is selected. */
  lemma {:induction false} FirstMatchCorrect(n: Node, q: Query)
    ensures FirstMatch(n, q).Some? ==>
      var p := FirstMatch(n, q).value;
      SelectsAt(n, q, p) && forall r :: Before(r, p) ==> !SelectsAt(n, q, r)
    ensures FirstMatch(n, q).None? ==> forall r :: !SelectsAt(n, q, r)
    decreases n, 1
  {
    if !Matches(q, n) && n.Element? {
      FirstMatchInCorrect(n.children, q, 0);
      forall r | r != [] ensures NodeAt(n, r) == NodeAtIn(n.children, r) {
        NodeAtElement(n, r);
      }
    }
  }

  lemma {:induction false} FirstMatchInCorrect(cs: seq<Node>, q: Query, i: nat)
    ensures FirstMatchIn(cs, q, i).Some? ==>
      var p := FirstMatchIn(cs, q, i).value;
      p != [] && i <= p[0] && SelectsAtIn(cs, q, p) &&
      forall r :: r != [] && i <= r[0] && Before(r, p) ==> !SelectsAtIn(cs, q, r)
    ensures FirstMatchIn(cs, q, i).None? ==>
      forall r :: r != [] && i <= r[0] ==> !SelectsAtIn(cs, q, r)
    decreases cs, |cs| - i
  {
    if i < |cs| {
      FirstMatchCorrect(cs[i], q);
      FirstMatchInCorrect(cs, q, i + 1);
      match FirstMatch(cs[i], q)
      case Some(p) =>
        var full := [i] + p;
        assert full[1..] == p;
        forall r | r != [] && i <= r[0] && Before(r, full) ensures !SelectsAtIn(cs, q, r) {
          if r[0] == i {
            assert Before(r[1..], p);
          }
        }
      case None =>
        assert FirstMatchIn(cs, q, i) == FirstMatchIn(cs, q, i + 1);
        forall r | r != [] && r[0] == i ensures !SelectsAtIn(cs, q, r) {
          assert NodeAtIn(cs, r) == NodeAt(cs[i], r[1..]);
          assert !SelectsAt(cs[i], q, r[1..]);
        }
    }
  }

  /** `element.querySelector`, and a `TreeWalker` rooted at an element: the first
      DESCENDANT of the node at `base` that `q` selects; the node itself is never
      a candidate. The result is an absolute path. */
  function QueryDescendant(root: Node, base: Path, q: Query): Option<Path> {
    if IsElementAt(root, base) then
      match FirstMatchIn(NodeAt(root, base).value.children, q, 0)
      case Some(p) => Some(base + p)
      case None => None
    else None
  }

  /** What QueryDescendant promises, in terms of absolute paths: a proper descendant
      of `base` that is selected, with no selected descendant of `base` before it. */
  lemma QueryDescendantCorrect(root: Node, base: Path, q: Query)
    requires IsElementAt(root, base)
    ensures QueryDescendant(root, base, q).Some? ==>
      var p := QueryDescendant(root, base, q).value;
      |p| > |base| && p[..|base|] == base && SelectsAt(root, q, p) &&
      forall r :: r != [] && Before(r, p[|base|..]) ==> !SelectsAt(root, q, base + r)
    ensures QueryDescendant(root, base, q).None? ==>
      forall r :: r != [] ==> !SelectsAt(root, q, base + r)
  {
    var e := NodeAt(root, base).value;
    FirstMatchInCorrect(e.children, q, 0);
    forall r | r != [] ensures NodeAt(root, base + r) == NodeAtIn(e.children, r) {
      NodeAtAppend(root, base, r);
      NodeAtElement(e, r);
    }
    if QueryDescendant(root, base, q).Some? {
      var rel := FirstMatchIn(e.children, q, 0).value;
      assert (base + rel)[..|base|] == base && (base + rel)[|base|..] == rel;
    }
  }

  /** `document.getElementById(v)`: the first element in tree order whose `id`
      attribute is `v`; the empty string names no element. */
  function GetElementById(root: Node, v: string): Option<Path> {
    if v == "" then None else FirstMatch(root, ElementWithId(v))
  }

  // ---------------------------------------------------------------------------
  // Enumeration in tree order

  function Prefixed(i: nat, ps: seq<Path>): (r: seq<Path>)
    ensures |r| == |ps| && forall j :: 0 <= j < |ps| ==> r[j] == [i] + ps[j]
  {
    if ps == [] then [] else [[i] + ps[0]] + Prefixed(i, ps[1..])
  }

  /** Every node of the subtree of `n` (n included) that `q` selects, in tree order. */
  function AllMatches(n: Node, q: Query): seq<Path>
    decreases n, 1
  {
    (if Matches(q, n) then [[]] else []) +
    (if Descends(q, n) then AllMatchesIn(n.children, q, 0) else [])
  }

  function AllMatchesIn(cs: seq<Node>, q: Query, i: nat): seq<Path>
    decreases cs, |cs| - i
  {
    if i >= |cs| then [] else Prefixed(i, AllMatches(cs[i], q)) + AllMatchesIn(cs, q, i + 1)
  }

  /** Everything enumerated is selected. */
  lemma {:induction false} AllMatchesSound(n: Node, q: Query)
    ensures forall p :: p in AllMatches(n, q) ==> SelectsAt(n, q, p)
    decreases n, 1
  {
    if Descends(q, n) {
      AllMatchesInSound(n.children, q, 0);
      forall p | p in AllMatchesIn(n.children, q, 0) ensures SelectsAt(n, q, p) {
        NodeAtElement(n, p);
      }
    }
  }

  lemma {:induction false} AllMatchesInSound(cs: seq<Node>, q: Query, i: nat)
    ensures forall p :: p in AllMatchesIn(cs, q, i) ==> p != [] && i <= p[0] && SelectsAtIn(cs, q, p)
    decreases cs, |cs| - i
  {
    if i < |cs| {
      AllMatchesSound(cs[i], q);
      AllMatchesInSound(cs, q, i + 1);
      var here := AllMatches(cs[i], q);
      forall p | p in Prefixed(i, here) ensures p != [] && i <= p[0] && SelectsAtIn(cs, q, p) {
        var j :| 0 <= j < |here| && p == Prefixed(i, here)[j];
        assert p[0] == i && p[1..] == here[j];
        assert here[j] in here;
        assert NodeAtIn(cs, p) == NodeAt(cs[i], here[j]);
      }
    }
  }

  /** Enumeration reaches `p` from `n`: every node on the way down, `n` included and
      the node at `p` excluded, is one the query looks inside. */
  predicate Open(n: Node, q: Query, p: Path)
    decreases |p|
  {
    p == [] || (Descends(q, n) && p[0] < |n.children| && Open(n.children[p[0]], q, p[1..]))
  }

  /** A query other than `form.elements` looks inside every element, so it reaches
      every node. */
  lemma {:induction false} OpenAll(n: Node, q: Query, p: Path)
    requires q != ListedElement && NodeAt(n, p).Some?
    ensures Open(n, q, p)
    decreases |p|
  {
    if p != [] {
      OpenAll(n.children[p[0]], q, p[1..]);
    }
  }

  /** Enumeration lists every selected node it reaches. */
  lemma {:induction false} AllMatchesComplete(n: Node, q: Query, p: Path)
    requires SelectsAt(n, q, p) && Open(n, q, p)
    ensures p in AllMatches(n, q)
    decreases n, 1
  {
    if p != [] {
      NodeAtElement(n, p);
      AllMatchesInComplete(n.children, q, 0, p);
    }
  }

  lemma {:induction false} AllMatchesInComplete(cs: seq<Node>, q: Query, i: nat, p: Path)
    requires p != [] && i <= p[0] < |cs| && SelectsAtIn(cs, q, p) && Open(cs[p[0]], q, p[1..])
    ensures p in AllMatchesIn(cs, q, i)
    decreases cs, |cs| - i
  {
    var here := AllMatches(cs[i], q);
    assert AllMatchesIn(cs, q, i) == Prefixed(i, here) + AllMatchesIn(cs, q, i + 1);
    if p[0] == i {
      assert SelectsAt(cs[i], q, p[1..]);
      AllMatchesComplete(cs[i], q, p[1..]);
      var j :| 0 <= j < |here| && here[j] == p[1..];
      assert p == [i] + p[1..];
      assert Prefixed(i, here)[j] == p;
    } else {
      AllMatchesInComplete(cs, q, i + 1, p);
    }
  }

  /** Paths listed in strictly increasing tree order, hence without repeats. */
  predicate Ordered(ps: seq<Path>) {
    forall i, j :: 0 <= i < j < |ps| ==> Before(ps[i], ps[j])
  }

  lemma {:induction false} BeforeIrreflexive(p: Path)
    ensures !Before(p, p)
    decreases |p|
  {
    if p != [] {
      BeforeIrreflexive(p[1..]);
    }
  }

  lemma OrderedPrefixed(i: nat, ps: seq<Path>)
    requires Ordered(ps)
    ensures Ordered(Prefixed(i, ps))
  {
    var r := Prefixed(i, ps);
    forall a, b | 0 <= a < b < |r| ensures Before(r[a], r[b]) {
      assert r[a][1..] == ps[a] && r[b][1..] == ps[b];
    }
  }

  lemma OrderedConcat(xs: seq<Path>, ys: seq<Path>)
    requires Ordered(xs) && Ordered(ys)
    requires forall x, y :: x in xs && y in ys ==> Before(x, y)
    ensures Ordered(xs + ys)
  {
    var r := xs + ys;
    forall a, b | 0 <= a < b < |r| ensures Before(r[a], r[b]) {
      if b < |xs| {
      } else if a >= |xs| {
        assert r[a] == ys[a - |xs|] && r[b] == ys[b - |xs|];
      } else {
        assert r[a] in xs && r[b] in ys;
      }
    }
  }

  /** Enumeration lists its nodes in tree order. */
  lemma {:induction false} AllMatchesOrdered(n: Node, q: Query)
    ensures Ordered(AllMatches(n, q))
    decreases n, 1
  {
    var own: seq<Path> := if Matches(q, n) then [[]] else [];
    var below: seq<Path> := if Descends(q, n) then AllMatchesIn(n.children, q, 0) else [];
    if Descends(q, n) {
      AllMatchesInOrdered(n.children, q, 0);
      AllMatchesInSound(n.children, q, 0);
    }
    OrderedConcat(own, below);
  }

  lemma {:induction false} AllMatchesInOrdered(cs: seq<Node>, q: Query, i: nat)
    ensures Ordered(AllMatchesIn(cs, q, i))
    decreases cs, |cs| - i
  {
    if i < |cs| {
      var here := Prefixed(i, AllMatches(cs[i], q));
      AllMatchesOrdered(cs[i], q);
      OrderedPrefixed(i, AllMatches(cs[i], q));
      AllMatchesInOrdered(cs, q, i + 1);
      AllMatchesInSound(cs, q, i + 1);
      forall x, y | x in here && y in AllMatchesIn(cs, q, i + 1) ensures Before(x, y) {
        var a :| 0 <= a < |here| && here[a] == x;
      }
      OrderedConcat(here, AllMatchesIn(cs, q, i + 1));
    }
  }

  /** `document.forms`: every form element of the page, in tree order. */
  function Forms(root: Node): seq<Path> {
    AllMatches(root, FormElement)
  }

  /** `document.forms` holds exactly the form elements of the page. */
  lemma FormsExact(root: Node, p: Path)
    ensures p in Forms(root) <==> NodeAt(root, p).Some? && NodeAt(root, p).value.Element? &&
                                  NodeAt(root, p).value.tag == FormTag
  {
    AllMatchesSound(root, FormElement);
    if SelectsAt(root, FormElement, p) {
      OpenAll(root, FormElement, p);
      AllMatchesComplete(root, FormElement, p);
    }
  }

  /** `document.forms` is in document order, each form once. */
  lemma FormsOrdered(root: Node)
    ensures forall i, j :: 0 <= i < j < |Forms(root)| ==>
      Before(Forms(root)[i], Forms(root)[j]) && Forms(root)[i] != Forms(root)[j]
  {
    AllMatchesOrdered(root, FormElement);
    forall i, j | 0 <= i < j < |Forms(root)| ensures Forms(root)[i] != Forms(root)[j] {
      BeforeIrreflexive(Forms(root)[i]);
    }
  }

  /** `form.elements` for the form at `f`: its listed descendants, in tree order,
      leaving out those of a form nested inside it. */
  function ListedElements(root: Node, f: Path): seq<Path> {
    if IsElementAt(root, f) then
      var rel := AllMatchesIn(NodeAt(root, f).value.children, ListedElement, 0);
      seq(|rel|, j requires 0 <= j < |rel| => f + rel[j])
    else []
  }

  /** Each member of `form.elements` is a listed element strictly inside the form. */
  lemma ListedElementsSound(root: Node, f: Path)
    ensures forall p :: p in ListedElements(root, f) ==>
      |p| > |f| && p[..|f|] == f && NodeAt(root, p).Some? && IsListed(NodeAt(root, p).value)
  {
    if IsElementAt(root, f) {
      var rel := AllMatchesIn(NodeAt(root, f).value.children, ListedElement, 0);
      forall p | p in ListedElements(root, f)
        ensures |p| > |f| && p[..|f|] == f && NodeAt(root, p).Some? && IsListed(NodeAt(root, p).value)
      {
        var j :| 0 <= j < |rel| && p == f + rel[j];
        ListedMemberSound(root, f, rel[j]);
      }
    }
  }

  lemma ListedMemberSound(root: Node, f: Path, r: Path)
    requires IsElementAt(root, f) && r in AllMatchesIn(NodeAt(root, f).value.children, ListedElement, 0)
    ensures |f + r| > |f| && (f + r)[..|f|] == f && NodeAt(root, f + r).Some? && IsListed(NodeAt(root, f + r).value)
  {
    var e := NodeAt(root, f).value;
    AllMatchesInSound(e.children, ListedElement, 0);
    NodeAtAppend(root, f, r);
    NodeAtElement(e, r);
    assert (f + r)[..|f|] == f;
  }

  predicate IsFormAt(root: Node, p: Path) {
    IsElementAt(root, p) && NodeAt(root, p).value.tag == FormTag
  }

  /** From the node at `base`, `form.elements` reaches `base + s` when no node on the
      way, `base` included, is a form. */
  lemma {:induction false} OpenAt(root: Node, base: Path, s: Path)
    requires NodeAt(root, base).Some? && NodeAt(root, base + s).Some?
    requires forall m :: |base| <= m < |base + s| ==> !IsFormAt(root, (base + s)[..m])
    ensures Open(NodeAt(root, base).value, ListedElement, s)
    decreases |s|
  {
    if s != [] {
      var x := NodeAt(root, base).value;
      assert (base + s)[..|base|] == base;
      NodeAtAppend(root, base, s);
      var next := base + [s[0]];
      NodeAtAppend(root, base, [s[0]]);
      assert NodeAt(x, [s[0]]) == NodeAt(x.children[s[0]], []);
      assert next + s[1..] == base + s;
      OpenAt(root, next, s[1..]);
    }
  }

  /** Each listed element strictly inside the form at `f`, and not inside a form
      nested in it, is a member of its `form.elements`. */
  lemma ListedElementsComplete(root: Node, f: Path, p: Path)
    requires IsElementAt(root, f) && |p| > |f| && p[..|f|] == f
    requires NodeAt(root, p).Some? && IsListed(NodeAt(root, p).value)
    requires forall m :: |f| < m < |p| ==> !IsFormAt(root, p[..m])
    ensures p in ListedElements(root, f)
  {
    var e := NodeAt(root, f).value;
    var r := p[|f|..];
    assert p == f + r;
    NodeAtAppend(root, f, r);
    NodeAtElement(e, r);
    var base := f + [r[0]];
    NodeAtAppend(root, f, [r[0]]);
    assert NodeAt(e, [r[0]]) == NodeAt(e.children[r[0]], []);
    assert base + r[1..] == p;
    OpenAt(root, base, r[1..]);
    AllMatchesInComplete(e.children, ListedElement, 0, r);
    var rel := AllMatchesIn(e.children, ListedElement, 0);
    var j :| 0 <= j < |rel| && rel[j] == r;
    assert ListedElements(root, f)[j] == p;
  }

  /** `node.textContent`: the data of every text node in the subtree, in tree order. */
  function TextContent(n: Node): string
    decreases n, 1
  {
    if n.Text? then n.data else TextContentIn(n.children, 0)
  }

  function TextContentIn(cs: seq<Node>, i: nat): string
    decreases cs, |cs| - i
  {
    if i >= |cs| then "" else TextContent(cs[i]) + TextContentIn(cs, i + 1)
  }
}
