/** The form scanner injected into the page: one descriptor per entry of
    `document.forms`, each listing the form's text-like inputs and textareas. */
module FormScanner {
  import opened JsText
  import opened Dom
  import opened LabelResolver

  /** What the scanner reports for one field. `label` is absent when no label was
      found or its text holds no letter. */
  datatype FieldDescriptor = FieldDescriptor(id: string, name: string, labelText: Option<string>,
                                             kind: string, placeholder: string)

  datatype FormDescriptor = FormDescriptor(id: string, action: string, fields: seq<FieldDescriptor>)

  /** `EXCLUDE_FORM_TYPES` */
  predicate IsExcludedType(t: string) {
    t in {"radio", "checkbox", "file", "button", "submit", "reset", "hidden"}
  }

  /** The `type` property: always "textarea" on a textarea. */
  function TypeOf(n: Node): string
    requires n.Element?
  {
    if n.tag == TextAreaTag then "textarea" else n.kind
  }

  /** An input or textarea whose type is not excluded. */
  predicate IsScannedField(root: Node, p: Path) {
    IsElementAt(root, p) &&
    var n := NodeAt(root, p).value;
    (n.tag == InputTag || n.tag == TextAreaTag) && !IsExcludedType(TypeOf(n))
  }

  /** A form's `id` attribute if it is non-empty, else its index in `document.forms`. */
  function FormId(form: Node, index: nat): string
    requires form.Element?
  {
    if form.idAttr.Some? && form.idAttr.value != "" then form.idAttr.value else NatToString(index)
  }

  function DescribeField(root: Node, p: Path): FieldDescriptor
    requires IsElementAt(root, p)
  {
    var n := NodeAt(root, p).value;
    FieldDescriptor(n.idAttr.GetOr(""), n.nameAttr.GetOr(""), FieldLabel(root, p), TypeOf(n), n.placeholder)
  }

  /** The descriptors the scanner pushes while it walks `ps`, in order. */
  function ScannedFields(root: Node, ps: seq<Path>): seq<FieldDescriptor> {
    if ps == [] then []
    else
      var p := ps[|ps| - 1];
      ScannedFields(root, ps[..|ps| - 1]) + (if IsScannedField(root, p) then [DescribeField(root, p)] else [])
  }

  function DescribeForm(root: Node, index: nat): FormDescriptor
    requires index < |Forms(root)|
  {
    var f := Forms(root)[index];
    FormsExact(root, f);
    var form := NodeAt(root, f).value;
    FormDescriptor(FormId(form, index), form.action, ScannedFields(root, ListedElements(root, f)))
  }

  /** The descriptors of the first `n` forms, in the order of `document.forms`. */
  function DescribeForms(root: Node, n: nat): (r: seq<FormDescriptor>)
    requires n <= |Forms(root)|
    ensures |r| == n && forall i :: 0 <= i < n ==> r[i] == DescribeForm(root, i)
  {
    if n == 0 then [] else DescribeForms(root, n - 1) + [DescribeForm(root, n - 1)]
  }

  /** `findFormsV2()`: one descriptor per form of the page, in order. */
  method FindFormsV2(root: Node) returns (forms: seq<FormDescriptor>)
    ensures forms == DescribeForms(root, |Forms(root)|)
  {
    forms := [];
    for index := 0 to |Forms(root)|
      invariant forms == DescribeForms(root, index)
    {
      var formObject := ScanForm(root, index);
      forms := forms + [formObject];
    }
  }

  /** One pass of the outer loop of `findFormsV2`: the form object for
      `document.forms[index]`. */
  method ScanForm(root: Node, index: nat) returns (formObject: FormDescriptor)
    requires index < |Forms(root)|
    ensures formObject == DescribeForm(root, index)
  {
    var f := Forms(root)[index];
    FormsExact(root, f);
    var form := NodeAt(root, f).value;
    var id := if form.idAttr.Some? && form.idAttr.value != "" then form.idAttr.value else NatToString(index);
    var fields := ScanFormFields(root, f);
    formObject := FormDescriptor(id, form.action, fields);
  }

  /** The inner loop of `findFormsV2` over `form.elements`. */
  method ScanFormFields(root: Node, f: Path) returns (fields: seq<FieldDescriptor>)
    ensures fields == ScannedFields(root, ListedElements(root, f))
  {
    fields := [];
    var elements := ListedElements(root, f);
    ListedElementsSound(root, f);
    for k := 0 to |elements|
      invariant fields == ScannedFields(root, elements[..k])
    {
      assert elements[k] in elements;
      ScannedFieldsStep(root, elements, k);
      var pushed := ScanField(root, elements[k]);
      fields := fields + pushed;
    }
    assert elements[..|elements|] == elements;
  }

  /** One pass of the inner loop: the descriptor pushed for the element at `field`,
      if any. */
  method ScanField(root: Node, field: Path) returns (pushed: seq<FieldDescriptor>)
    requires NodeAt(root, field).Some?
    ensures pushed == if IsScannedField(root, field) then [DescribeField(root, field)] else []
  {
    pushed := [];
    var n := NodeAt(root, field).value;
    if n.Element? && (n.tag == InputTag || n.tag == TextAreaTag) {
      var kind := if n.tag == TextAreaTag then "textarea" else n.kind;
      if !IsExcludedType(kind) {
        var labelElem := SearchLabelUpwards(root, field);
        var labelText := match labelElem
          case Some(q) => if NodeAt(root, q).Some? then FirstLetterRun(TextContent(NodeAt(root, q).value)) else None
          case None => None;
        assert labelText == FieldLabel(root, field);
        pushed := [FieldDescriptor(n.idAttr.GetOr(""), n.nameAttr.GetOr(""), labelText, kind, n.placeholder)];
      }
    }
  }

  lemma ScannedFieldsStep(root: Node, ps: seq<Path>, k: nat)
    requires k < |ps|
    ensures ScannedFields(root, ps[..k + 1]) == ScannedFields(root, ps[..k]) +
      (if IsScannedField(root, ps[k]) then [DescribeField(root, ps[k])] else [])
  {
    assert ps[..k + 1][..k] == ps[..k];
  }

  /** The paths the scanner keeps out of `ps`, in order. */
  function ScannedPaths(root: Node, ps: seq<Path>): seq<Path> {
    if ps == [] then []
    else
      var p := ps[|ps| - 1];
      ScannedPaths(root, ps[..|ps| - 1]) + (if IsScannedField(root, p) then [p] else [])
  }

  /** The scanner keeps exactly the inputs and textareas of non-excluded type among
      the paths it walks, in their order, and describes each one. */
  lemma {:induction false} ScannedFieldsSpec(root: Node, ps: seq<Path>)
    ensures forall p :: p in ScannedPaths(root, ps) <==> p in ps && IsScannedField(root, p)
    ensures |ScannedFields(root, ps)| == |ScannedPaths(root, ps)|
    ensures forall j :: 0 <= j < |ScannedPaths(root, ps)| ==>
      IsScannedField(root, ScannedPaths(root, ps)[j]) &&
      ScannedFields(root, ps)[j] == DescribeField(root, ScannedPaths(root, ps)[j])
  {
    if ps != [] {
      var init := ps[..|ps| - 1];
      ScannedFieldsSpec(root, init);
      assert ps == init + [ps[|ps| - 1]];
    }
  }

  /** No scanned field has an excluded type. */
  lemma NoExcludedField(root: Node, ps: seq<Path>)
    ensures forall f :: f in ScannedFields(root, ps) ==> !IsExcludedType(f.kind)
  {
    ScannedFieldsSpec(root, ps);
    forall f | f in ScannedFields(root, ps) ensures !IsExcludedType(f.kind) {
      var j :| 0 <= j < |ScannedFields(root, ps)| && ScannedFields(root, ps)[j] == f;
      assert IsScannedField(root, ScannedPaths(root, ps)[j]);
    }
  }

  /** Each descriptor of form `i` comes from an input or textarea strictly inside that
      form whose type is not excluded; the id is the explicit one if non-empty, else
      the position. */
  lemma DescribeFormSpec(root: Node, i: nat)
    requires i < |Forms(root)|
    ensures var f := Forms(root)[i];
      var d := DescribeForm(root, i);
      IsElementAt(root, f) && NodeAt(root, f).value.tag == FormTag &&
      d.id == (if NodeAt(root, f).value.idAttr.GetOr("") != "" then NodeAt(root, f).value.idAttr.value else NatToString(i)) &&
      |d.fields| == |ScannedPaths(root, ListedElements(root, f))| &&
      forall j :: 0 <= j < |d.fields| ==>
        var p := ScannedPaths(root, ListedElements(root, f))[j];
        |p| > |f| && p[..|f|] == f && IsScannedField(root, p) && d.fields[j] == DescribeField(root, p)
  {
    var f := Forms(root)[i];
    FormsExact(root, f);
    var ps := ListedElements(root, f);
    ListedElementsSound(root, f);
    ScannedFieldsSpec(root, ps);
    forall j | 0 <= j < |ScannedPaths(root, ps)| ensures |ScannedPaths(root, ps)[j]| > |f| && ScannedPaths(root, ps)[j][..|f|] == f {
      assert ScannedPaths(root, ps)[j] in ScannedPaths(root, ps);
    }
  }

  /** Every input or textarea of non-excluded type strictly inside form `i`, other than
      an image input and other than one inside a form nested in it, has a descriptor
      in the form's scan. */
  lemma DescribeFormComplete(root: Node, i: nat, p: Path)
    requires i < |Forms(root)|
    requires |p| > |Forms(root)[i]| && p[..|Forms(root)[i]|] == Forms(root)[i]
    requires forall m :: |Forms(root)[i]| < m < |p| ==> !IsFormAt(root, p[..m])
    requires IsScannedField(root, p) && NodeAt(root, p).value.kind != "image"
    ensures var f := Forms(root)[i];
      var ps := ScannedPaths(root, ListedElements(root, f));
      exists j :: 0 <= j < |ps| && ps[j] == p &&
        j < |DescribeForm(root, i).fields| && DescribeForm(root, i).fields[j] == DescribeField(root, p)
  {
    var f := Forms(root)[i];
    FormsExact(root, f);
    ListedElementsComplete(root, f, p);
    var ps := ScannedPaths(root, ListedElements(root, f));
    ScannedFieldsSpec(root, ListedElements(root, f));
    assert p in ps;
    var j :| 0 <= j < |ps| && ps[j] == p;
  }

  // ---------------------------------------------------------------------------
  // The first scanner, `findForms`

  /** The fields of the first scanner: the same filter and description, but every
      label is left empty. */
  function FieldsV1(root: Node, ps: seq<Path>): seq<FieldDescriptor> {
    if ps == [] then []
    else if IsScannedField(root, ps[0]) then
      var n := NodeAt(root, ps[0]).value;
      [FieldDescriptor(n.idAttr.GetOr(""), n.nameAttr.GetOr(""), Some(""), TypeOf(n), n.placeholder)] + FieldsV1(root, ps[1..])
    else FieldsV1(root, ps[1..])
  }

  /** `findForms()`: one descriptor per form, with the fields of the first scanner. */
  function FindForms(root: Node): seq<FormDescriptor> {
    var fs := Forms(root);
    seq(|fs|, i requires 0 <= i < |fs| =>
      FormsExact(root, fs[i]);
      var form := NodeAt(root, fs[i]).value;
      FormDescriptor(FormId(form, i), form.action, FieldsV1(root, ListedElements(root, fs[i]))))
  }

  function WithoutLabel(f: FieldDescriptor): FieldDescriptor {
    f.(labelText := Some(""))
  }

  /** Every descriptor of `fs` with its label emptied, in order. */
  function WithoutLabels(fs: seq<FieldDescriptor>): (r: seq<FieldDescriptor>)
    ensures |r| == |fs| && forall j :: 0 <= j < |fs| ==> r[j] == WithoutLabel(fs[j])
  {
    if fs == [] then [] else [WithoutLabel(fs[0])] + WithoutLabels(fs[1..])
  }

  /** The first scanner keeps the same fields as the second and describes them the
      same way, except that it leaves every label empty. */
  lemma {:induction false} FieldsV1AsV2(root: Node, ps: seq<Path>)
    ensures FieldsV1(root, ps) == WithoutLabels(ScannedFields(root, ps))
    decreases |ps|
  {
    if ps != [] {
      FieldsV1AsV2(root, ps[1..]);
      ScannedFieldsFront(root, ps);
      if IsScannedField(root, ps[0]) {
        var rest := ScannedFields(root, ps[1..]);
        var d := DescribeField(root, ps[0]);
        assert ([d] + rest)[0] == d && ([d] + rest)[1..] == rest;
      }
    }
  }

  /** ScannedFields can equally be read front to back. */
  lemma {:induction false} ScannedFieldsFront(root: Node, ps: seq<Path>)
    requires ps != []
    ensures ScannedFields(root, ps) ==
      (if IsScannedField(root, ps[0]) then [DescribeField(root, ps[0])] else []) + ScannedFields(root, ps[1..])
    decreases |ps|
  {
    if |ps| > 1 {
      var init := ps[..|ps| - 1];
      ScannedFieldsFront(root, init);
      assert init[1..] == ps[1..][..|ps[1..]| - 1];
      assert ps[1..][|ps[1..]| - 1] == ps[|ps| - 1];
    } else {
      assert ps[..0] == [] && ps[1..] == [];
    }
  }

  /** Both scanners find the same forms with the same ids, actions and fields; the
      first one leaves every label empty. */
  lemma FindFormsAgree(root: Node)
    ensures var forms := DescribeForms(root, |Forms(root)|);
      |FindForms(root)| == |forms| &&
      forall i :: 0 <= i < |forms| ==>
        FindForms(root)[i].id == forms[i].id && FindForms(root)[i].action == forms[i].action &&
        FindForms(root)[i].fields == WithoutLabels(forms[i].fields)
  {
    forall i | 0 <= i < |Forms(root)| ensures FindForms(root)[i].fields == WithoutLabels(DescribeForm(root, i).fields) {
      FieldsV1AsV2(root, ListedElements(root, Forms(root)[i]));
    }
  }
}
