// Dropdowns without a dictionary (backend/app/config_postprocess.py:33-189):
// bound to a dictionary by name, then by a given mapping, and what is left is
// turned into a text input. An empty string stands for a missing value.
module ConfigPostprocess {
  import opened Basics
  import opened PyText

  datatype Component = Component(componentType: string, kind: string, dict: string, dictCode: string,
                                 caption: string, name: string, code: string, modelField: string, options: string)

  datatype Form = Form(code: string, components: seq<Component>)

  datatype Field = Field(code: string, kind: string, dict: string)

  datatype Model = Model(code: string, fields: seq<Field>)

  datatype Dict = Dict(code: string, name: string)

  // A dropdown without a usable dictionary, by position.
  datatype Item = Item(key: string, formCode: string, caption: string, modelField: string, form: nat, comp: nat)

  // What the callers are told about it.
  datatype Entry = Entry(caption: string, modelField: string, formCode: string)

  const SELECT_SINGLE := "FORM_SELECT_INPUT_SINGLE"
  const SELECT := "FORM_SELECT_INPUT"
  const FIELD_SELECT_SINGLE := "下拉单选"
  const FIELD_SELECT := "下拉多选"
  const TEXT_COMPONENT := "FORM_TEXT_INPUT"
  const TEXT_FIELD := "单行输入"

  // ----- which dropdowns are unlinked -----

  predicate IsSelectField(kind: string) {
    kind == FIELD_SELECT_SINGLE || kind == FIELD_SELECT
  }

  predicate IsDropdown(c: Component) {
    var t := Or(c.componentType, c.kind);
    t == SELECT_SINGLE || t == SELECT || IsSelectField(t)
  }

  function DictRef(c: Component): string {
    Strip(Or(c.dict, c.dictCode))
  }

  // The stripped codes of the dictionaries that have one.
  function CodeSet(dicts: seq<Dict>): set<string> {
    set d | d in dicts && d.code != "" :: Strip(d.code)
  }

  predicate IsUnlinked(c: Component, codes: set<string>) {
    IsDropdown(c) && !(DictRef(c) != "" && DictRef(c) in codes)
  }

  function LastPart(s: string): string
    decreases |s|
  {
    var i := Find(s, ".");
    if i == -1 then s else LastPart(s[i + 1..])
  }

  function CaptionOf(c: Component): string {
    Or(c.caption, Or(c.name, Or(LastPart(c.modelField), c.code)))
  }

  function ItemOf(form: Form, f: nat, k: nat): Item
    requires k < |form.components|
  {
    var c := form.components[k];
    Item(Or(c.modelField, form.code + "::" + CaptionOf(c)), form.code, CaptionOf(c), c.modelField, f, k)
  }

  // The unlinked dropdowns among the first n components of a form.
  function InForm(form: Form, f: nat, n: nat, codes: set<string>): seq<Item>
    requires n <= |form.components|
  {
    if n == 0 then []
    else InForm(form, f, n - 1, codes) + (if IsUnlinked(form.components[n - 1], codes) then [ItemOf(form, f, n - 1)] else [])
  }

  // The unlinked dropdowns of the first n forms, in order.
  function Unlinked(forms: seq<Form>, n: nat, codes: set<string>): seq<Item>
    requires n <= |forms|
  {
    if n == 0 then []
    else Unlinked(forms, n - 1, codes) + InForm(forms[n - 1], n - 1, |forms[n - 1].components|, codes)
  }

  function AllUnlinked(forms: seq<Form>, codes: set<string>): seq<Item> {
    Unlinked(forms, |forms|, codes)
  }

  predicate At(forms: seq<Form>, f: nat, k: nat) {
    f < |forms| && k < |forms[f].components|
  }

  // The items are the unlinked dropdowns, each once.
  lemma {:induction false} InFormIs(form: Form, f: nat, n: nat, codes: set<string>)
    requires n <= |form.components|
    ensures forall u :: u in InForm(form, f, n, codes)
              <==> u.form == f && u.comp < n && IsUnlinked(form.components[u.comp], codes) && u == ItemOf(form, f, u.comp)
    ensures forall i, j :: 0 <= i < j < |InForm(form, f, n, codes)|
              ==> InForm(form, f, n, codes)[i].comp < InForm(form, f, n, codes)[j].comp
  {
    hide IsUnlinked;
    if n > 0 {
      InFormIs(form, f, n - 1, codes);
      var front := InForm(form, f, n - 1, codes);
      forall i | 0 <= i < |front|
        ensures front[i].comp < n - 1
      {
        assert front[i] in front;
      }
      assert (ItemOf(form, f, n - 1)).comp == n - 1;
    }
  }

  predicate Precedes(u: Item, v: Item) {
    u.form < v.form || (u.form == v.form && u.comp < v.comp)
  }

  ghost predicate Ordered(items: seq<Item>) {
    forall i, j :: 0 <= i < j < |items| ==> Precedes(items[i], items[j])
  }

  lemma {:induction false} UnlinkedIs(forms: seq<Form>, n: nat, codes: set<string>)
    requires n <= |forms|
    ensures forall u :: u in Unlinked(forms, n, codes)
              <==> u.form < n && At(forms, u.form, u.comp) && IsUnlinked(forms[u.form].components[u.comp], codes)
                   && u == ItemOf(forms[u.form], u.form, u.comp)
    ensures Ordered(Unlinked(forms, n, codes))
  {
    hide IsUnlinked, ItemOf;
    if n > 0 {
      UnlinkedIs(forms, n - 1, codes);
      var front := Unlinked(forms, n - 1, codes);
      var form := forms[n - 1];
      var back := InForm(form, n - 1, |form.components|, codes);
      InFormIs(form, n - 1, |form.components|, codes);
      forall i, j | 0 <= i < j < |front + back|
        ensures Precedes((front + back)[i], (front + back)[j])
      {
        assert i < |front| ==> (front + back)[i] in front;
        assert j >= |front| ==> (front + back)[j] in back;
        assert i >= |front| ==> (front + back)[i] in back;
      }
    }
  }

  // ----- the places a binding writes to -----

  function Bound(c: Component, code: string): Component {
    c.(dict := code, dictCode := code)
  }

  function Downgraded(c: Component): Component {
    c.(componentType := TEXT_COMPONENT, dict := "", dictCode := "", options := "")
  }

  function Put(forms: seq<Form>, f: nat, k: nat, c: Component): seq<Form>
    requires At(forms, f, k)
  {
    forms[f := forms[f].(components := forms[f].components[k := c])]
  }

  function FirstModel(models: seq<Model>, code: string): (i: nat)
    ensures i <= |models|
    ensures i < |models| ==> models[i].code == code
    ensures forall j :: 0 <= j < i ==> models[j].code != code
  {
    if models == [] || models[0].code == code then 0 else FirstModel(models[1..], code) + 1
  }

  function FirstField(fields: seq<Field>, code: string): (i: nat)
    ensures i <= |fields|
    ensures i < |fields| ==> fields[i].code == code
    ensures forall j :: 0 <= j < i ==> fields[j].code != code
  {
    if fields == [] || fields[0].code == code then 0 else FirstField(fields[1..], code) + 1
  }

  // How a model field is rewritten: bound to a dictionary, or unbound.
  datatype Write = BindTo(code: string) | Unbind

  function Rewritten(x: Field, w: Write): Field {
    match w
    case BindTo(code) => Field(x.code, if IsSelectField(x.kind) then x.kind else FIELD_SELECT_SINGLE, code)
    case Unbind => Field(x.code, if IsSelectField(x.kind) then TEXT_FIELD else x.kind, "")
  }

  // The field that a reference `model.field` names: the first of that code in
  // the first model of that code.
  datatype Place = NoPlace | Place(model: nat, field: nat)

  function PlaceOf(models: seq<Model>, modelField: string): (p: Place)
    ensures p.Place? ==> p.model < |models| && p.field < |models[p.model].fields|
  {
    var dot := Find(modelField, ".");
    if dot == -1 then NoPlace
    else
      var i := FirstModel(models, modelField[..dot]);
      if i == |models| then NoPlace
      else
        var j := FirstField(models[i].fields, modelField[dot + 1..]);
        if j == |models[i].fields| then NoPlace else Place(i, j)
  }

  function WriteField(models: seq<Model>, modelField: string, w: Write): seq<Model> {
    var p := PlaceOf(models, modelField);
    if p.NoPlace? then models
    else
      var fields := models[p.model].fields;
      models[p.model := models[p.model].(fields := fields[p.field := Rewritten(fields[p.field], w)])]
  }

  // A write leaves every reference where it was.
  lemma {:induction false} FirstModelKept(models: seq<Model>, i: nat, fields: seq<Field>, code: string)
    requires i < |models|
    ensures FirstModel(models[i := models[i].(fields := fields)], code) == FirstModel(models, code)
  {
    var after := models[i := models[i].(fields := fields)];
    if models[0].code != code && i > 0 {
      assert after[1..] == models[1..][i - 1 := models[i].(fields := fields)];
      FirstModelKept(models[1..], i - 1, fields, code);
    } else if models[0].code != code {
      assert after[1..] == models[1..];
    }
  }

  lemma {:induction false} FirstFieldKept(fields: seq<Field>, i: nat, x: Field, code: string)
    requires i < |fields| && x.code == fields[i].code
    ensures FirstField(fields[i := x], code) == FirstField(fields, code)
  {
    if fields[0].code != code && i > 0 {
      assert fields[i := x][1..] == fields[1..][i - 1 := x];
      FirstFieldKept(fields[1..], i - 1, x, code);
    } else if fields[0].code != code {
      assert fields[i := x][1..] == fields[1..];
    }
  }

  lemma PlaceKept(models: seq<Model>, modelField: string, w: Write, other: string)
    ensures PlaceOf(WriteField(models, modelField, w), other) == PlaceOf(models, other)
  {
    hide FirstModel, FirstField, Find;
    var p := PlaceOf(models, modelField);
    if p.Place? {
      var fields := models[p.model].fields;
      var x := Rewritten(fields[p.field], w);
      var after := WriteField(models, modelField, w);
      var dot := Find(other, ".");
      if dot != -1 {
        FirstModelKept(models, p.model, fields[p.field := x], other[..dot]);
        FirstFieldKept(fields, p.field, x, other[dot + 1..]);
      }
    }
  }

  // ----- a run of changes -----

  // A change to one dropdown and to the model field behind it.
  datatype Patch = Patch(form: nat, comp: nat, modelField: string, write: Write)

  function Changed(c: Component, w: Write): Component {
    match w
    case BindTo(code) => Bound(c, code)
    case Unbind => Downgraded(c)
  }

  function ApplyOne(forms: seq<Form>, p: Patch): seq<Form> {
    if At(forms, p.form, p.comp) then Put(forms, p.form, p.comp, Changed(forms[p.form].components[p.comp], p.write)) else forms
  }

  function ApplyAll(forms: seq<Form>, ps: seq<Patch>): seq<Form> {
    if ps == [] then forms else ApplyOne(ApplyAll(forms, ps[..|ps| - 1]), ps[|ps| - 1])
  }

  function WriteAll(models: seq<Model>, ps: seq<Patch>): seq<Model> {
    if ps == [] then models
    else WriteField(WriteAll(models, ps[..|ps| - 1]), ps[|ps| - 1].modelField, ps[|ps| - 1].write)
  }

  // The forms keep their codes and the number of their components.
  ghost predicate SameShape(a: seq<Form>, b: seq<Form>) {
    && |a| == |b|
    && forall f :: 0 <= f < |a| ==> a[f].code == b[f].code && |a[f].components| == |b[f].components|
  }

  ghost predicate DistinctPlaces(ps: seq<Patch>) {
    forall i, j :: 0 <= i < j < |ps| ==> !(ps[i].form == ps[j].form && ps[i].comp == ps[j].comp)
  }

  lemma {:induction false} ApplyShape(forms: seq<Form>, ps: seq<Patch>)
    ensures SameShape(forms, ApplyAll(forms, ps))
    decreases |ps|
  {
    if ps != [] {
      ApplyShape(forms, ps[..|ps| - 1]);
      hide Changed;
    }
  }

  // A component with no change is as before.
  lemma {:induction false} ApplyElsewhere(forms: seq<Form>, ps: seq<Patch>, f: nat, k: nat)
    requires At(forms, f, k) && forall p :: p in ps ==> !(p.form == f && p.comp == k)
    ensures SameShape(forms, ApplyAll(forms, ps)) && ApplyAll(forms, ps)[f].components[k] == forms[f].components[k]
    decreases |ps|
  {
    hide Changed;
    ApplyShape(forms, ps);
    if ps != [] {
      var n := |ps| - 1;
      assert ps[n] in ps;
      ApplyElsewhere(forms, ps[..n], f, k);
    }
  }

  // A component with one change has just that change.
  lemma {:induction false} ApplyHere(forms: seq<Form>, ps: seq<Patch>, i: nat)
    requires i < |ps| && At(forms, ps[i].form, ps[i].comp) && DistinctPlaces(ps)
    ensures SameShape(forms, ApplyAll(forms, ps))
    ensures ApplyAll(forms, ps)[ps[i].form].components[ps[i].comp]
            == Changed(forms[ps[i].form].components[ps[i].comp], ps[i].write)
    decreases |ps|
  {
    hide Changed;
    var n := |ps| - 1;
    var front := ps[..n];
    ApplyShape(forms, ps);
    ApplyShape(forms, front);
    if i < n {
      ApplyHere(forms, front, i);
      assert front[i] == ps[i];
    } else {
      forall p | p in front
        ensures !(p.form == ps[n].form && p.comp == ps[n].comp)
      {
        var j :| 0 <= j < n && front[j] == p;
        assert ps[j] == p;
      }
      ApplyElsewhere(forms, front, ps[n].form, ps[n].comp);
    }
  }

  lemma {:induction false} ApplyAppend(forms: seq<Form>, a: seq<Patch>, b: seq<Patch>)
    ensures ApplyAll(forms, a + b) == ApplyAll(ApplyAll(forms, a), b)
    decreases |b|
  {
    hide ApplyOne;
    if b == [] {
      assert a + b == a;
    } else {
      assert (a + b)[..|a + b| - 1] == a + b[..|b| - 1];
      ApplyAppend(forms, a, b[..|b| - 1]);
    }
  }

  lemma {:induction false} WriteAppend(models: seq<Model>, a: seq<Patch>, b: seq<Patch>)
    ensures WriteAll(models, a + b) == WriteAll(WriteAll(models, a), b)
    decreases |b|
  {
    hide WriteField;
    if b == [] {
      assert a + b == a;
    } else {
      assert (a + b)[..|a + b| - 1] == a + b[..|b| - 1];
      WriteAppend(models, a, b[..|b| - 1]);
    }
  }

  // ----- the model fields after a run of changes -----

  lemma {:induction false} PlaceKeptAll(models: seq<Model>, ps: seq<Patch>, other: string)
    ensures PlaceOf(WriteAll(models, ps), other) == PlaceOf(models, other)
    decreases |ps|
  {
    hide PlaceOf, WriteField;
    if ps != [] {
      var n := |ps| - 1;
      PlaceKeptAll(models, ps[..n], other);
      PlaceKept(WriteAll(models, ps[..n]), ps[n].modelField, ps[n].write, other);
    }
  }

  ghost predicate IsPlace(models: seq<Model>, m: nat, x: nat) {
    m < |models| && x < |models[m].fields|
  }

  // A field that no change refers to is as before.
  lemma {:induction false} WriteElsewhere(models: seq<Model>, ps: seq<Patch>, m: nat, x: nat)
    requires IsPlace(models, m, x) && forall p :: p in ps ==> PlaceOf(models, p.modelField) != Place(m, x)
    ensures IsPlace(WriteAll(models, ps), m, x) && WriteAll(models, ps)[m].fields[x] == models[m].fields[x]
    decreases |ps|
  {
    hide Rewritten, PlaceOf;
    if ps != [] {
      var n := |ps| - 1;
      assert ps[n] in ps;
      WriteElsewhere(models, ps[..n], m, x);
      PlaceKeptAll(models, ps[..n], ps[n].modelField);
    }
  }

  // A field that a write left behind: a dropdown bound to the code, or no
  // dropdown and unbound.
  predicate SettledBy(x: Field, w: Write) {
    match w
    case BindTo(code) => x.dict == code && IsSelectField(x.kind)
    case Unbind => x.dict == "" && !IsSelectField(x.kind)
  }

  lemma RewrittenSettles(x: Field, w: Write)
    ensures SettledBy(Rewritten(x, w), w) && Rewritten(x, w).code == x.code
  {
    assert TEXT_FIELD[0] != FIELD_SELECT[0] && TEXT_FIELD[0] != FIELD_SELECT_SINGLE[0];
  }

  // A field that changes refer to ends as the last of them says.
  lemma {:induction false} LastWriteWins(models: seq<Model>, ps: seq<Patch>, i: nat)
    requires i < |ps| && PlaceOf(models, ps[i].modelField).Place?
    requires forall j :: i < j < |ps| ==> PlaceOf(models, ps[j].modelField) != PlaceOf(models, ps[i].modelField)
    ensures var q := PlaceOf(models, ps[i].modelField);
            && IsPlace(models, q.model, q.field) && IsPlace(WriteAll(models, ps), q.model, q.field)
            && SettledBy(WriteAll(models, ps)[q.model].fields[q.field], ps[i].write)
            && WriteAll(models, ps)[q.model].fields[q.field].code == models[q.model].fields[q.field].code
    decreases |ps|
  {
    hide PlaceOf, Rewritten, SettledBy;
    var n := |ps| - 1;
    var q := PlaceOf(models, ps[i].modelField);
    var front := WriteAll(models, ps[..n]);
    PlaceKeptAll(models, ps[..n], ps[n].modelField);
    forall x, w {
      RewrittenSettles(x, w);
    }
    if i < n {
      LastWriteWins(models, ps[..n], i);
    } else {
      FieldCodeKept(models, ps[..n], q.model, q.field);
    }
  }

  lemma {:induction false} FieldCodeKept(models: seq<Model>, ps: seq<Patch>, m: nat, x: nat)
    requires IsPlace(models, m, x)
    ensures IsPlace(WriteAll(models, ps), m, x) && WriteAll(models, ps)[m].fields[x].code == models[m].fields[x].code
    decreases |ps|
  {
    hide PlaceOf;
    if ps != [] {
      FieldCodeKept(models, ps[..|ps| - 1], m, x);
    }
  }

  // ----- by name and by a given mapping -----

  // Normalisation of a name (lower case, no spaces) is a parameter.
  type Norm = string -> string

  function SetDefault(t: map<string, string>, key: string, value: string): map<string, string> {
    if key in t then t else t[key := value]
  }

  predicate Usable(d: Dict) {
    Strip(d.code) != "" && Strip(d.name) != ""
  }

  function AddName(t: map<string, string>, d: Dict, norm: Norm): map<string, string> {
    if Usable(d) then SetDefault(SetDefault(t, Strip(d.name), Strip(d.code)), norm(Strip(d.name)), Strip(d.code)) else t
  }

  function NameTable(dicts: seq<Dict>, norm: Norm): map<string, string> {
    if dicts == [] then map[] else AddName(NameTable(dicts[..|dicts| - 1], norm), dicts[|dicts| - 1], norm)
  }

  predicate Answers(d: Dict, key: string, norm: Norm) {
    Usable(d) && (Strip(d.name) == key || norm(Strip(d.name)) == key)
  }

  // A key leads to the first dictionary that has it as name or normalised name.
  lemma {:induction false} NameTableIs(dicts: seq<Dict>, norm: Norm, key: string)
    ensures var t := NameTable(dicts, norm);
            && (key in t <==> exists d :: d in dicts && Answers(d, key, norm))
            && (key in t ==> exists i :: 0 <= i < |dicts| && Answers(dicts[i], key, norm) && t[key] == Strip(dicts[i].code)
                               && forall j :: 0 <= j < i ==> !Answers(dicts[j], key, norm))
    decreases |dicts|
  {
    hide Strip;
    if dicts != [] {
      var n := |dicts| - 1;
      var front := dicts[..n];
      NameTableIs(front, norm, key);
      var t := NameTable(dicts, norm);
      var before := NameTable(front, norm);
      assert dicts[n] in dicts;
      assert forall j :: 0 <= j < n ==> front[j] == dicts[j] && front[j] in dicts;
      if key in before {
        assert t[key] == before[key];
      } else {
        forall j | 0 <= j < n
          ensures !Answers(dicts[j], key, norm)
        {
          assert front[j] in front;
        }
        assert key in t <==> Answers(dicts[n], key, norm);
      }
    }
  }

  // What a caption leads to by name, "" when nothing.
  function NameCode(caption: string, table: map<string, string>, norm: Norm): string {
    if caption in table then table[caption] else if norm(caption) in table then table[norm(caption)] else ""
  }

  // What a given mapping makes of an item: only codes of defined dictionaries
  // are accepted.
  function RelinkCode(key: string, mapping: map<string, string>, codes: set<string>): Option<string> {
    if key in mapping && mapping[key] != "" && Strip(mapping[key]) in codes then Some(Strip(mapping[key])) else None
  }

  // All that decides what becomes of the items.
  datatype Rules = Rules(table: map<string, string>, norm: Norm, mapping: map<string, string>, codes: set<string>)

  function ByName(u: Item, r: Rules): string {
    NameCode(u.caption, r.table, r.norm)
  }

  function ByRelink(u: Item, r: Rules): Option<string> {
    if ByName(u, r) == "" then RelinkCode(u.key, r.mapping, r.codes) else None
  }

  // The code that an item is bound to by name, or else by the mapping.
  function Pick(u: Item, r: Rules, byName: bool): Option<string> {
    if !byName then ByRelink(u, r) else if ByName(u, r) != "" then Some(ByName(u, r)) else None
  }

  function PatchOf(u: Item, w: Write): Patch {
    Patch(u.form, u.comp, u.modelField, w)
  }

  function Patches(items: seq<Item>, r: Rules, byName: bool): seq<Patch> {
    if items == [] then []
    else
      var u := items[|items| - 1];
      Patches(items[..|items| - 1], r, byName)
      + (if Pick(u, r, byName).Some? then [PatchOf(u, BindTo(Pick(u, r, byName).value))] else [])
  }

  function Still(items: seq<Item>, r: Rules): seq<Item> {
    if items == [] then []
    else Still(items[..|items| - 1], r) + (if ByName(items[|items| - 1], r) != "" then [] else [items[|items| - 1]])
  }

  function Remaining(items: seq<Item>, r: Rules): seq<Item> {
    if items == [] then []
    else Remaining(items[..|items| - 1], r)
         + (if ByName(items[|items| - 1], r) == "" && ByRelink(items[|items| - 1], r).None? then [items[|items| - 1]] else [])
  }

  function UnbindPatches(items: seq<Item>): seq<Patch> {
    if items == [] then []
    else
      var u := items[|items| - 1];
      UnbindPatches(items[..|items| - 1]) + [Patch(u.form, u.comp, u.modelField, Unbind)]
  }

  function EntryOf(u: Item): Entry {
    Entry(u.caption, u.modelField, u.formCode)
  }

  function Entries(items: seq<Item>): seq<Entry> {
    if items == [] then [] else Entries(items[..|items| - 1]) + [EntryOf(items[|items| - 1])]
  }

  datatype Report = Report(linkedByName: nat, linkedByRelink: nat, unlinked: seq<Entry>)

  function RulesFor(dicts: seq<Dict>, norm: Norm, relink: Option<map<string, string>>): Rules {
    Rules(NameTable(dicts, norm), norm, if relink.Some? then relink.value else map[], CodeSet(dicts))
  }

  function ChangesOf(items: seq<Item>, r: Rules): seq<Patch> {
    Patches(items, r, true) + Patches(items, r, false)
  }

  // The changes of a reconciliation, in the order they are made.
  function Changes(forms: seq<Form>, r: Rules): seq<Patch> {
    ChangesOf(AllUnlinked(forms, r.codes), r)
  }

  // ----- the configuration -----

  class ConfigData {
    var forms: seq<Form>
    var models: seq<Model>
    var dicts: seq<Dict>

    constructor (forms: seq<Form>, models: seq<Model>, dicts: seq<Dict>)
      ensures this.forms == forms && this.models == models && this.dicts == dicts
    {
      this.forms, this.models, this.dicts := forms, models, dicts;
    }

    method FindUnlinkedDropdownComponents() returns (out: seq<Item>)
      ensures out == AllUnlinked(forms, CodeSet(dicts))
    {
      hide IsUnlinked, CodeSet, ItemOf;
      var codes := CodeSet(dicts);
      out := [];
      for f := 0 to |forms|
        invariant out == Unlinked(forms, f, codes)
      {
        var form := forms[f];
        ghost var before := out;
        assert before + [] == before;
        for k := 0 to |form.components|
          invariant out == before + InForm(form, f, k, codes)
        {
          if IsUnlinked(form.components[k], codes) {
            out := out + [ItemOf(form, f, k)];
          }
          assert before + (InForm(form, f, k, codes) + []) == before + InForm(form, f, k, codes);
        }
      }
    }

    // Writes the first field of the code in the first model of the code.
    method WriteModelField(modelField: string, w: Write)
      modifies this`models
      ensures models == WriteField(old(models), modelField, w)
    {
      hide Find, FirstModel, FirstField, Rewritten;
      var dot := Find(modelField, ".");
      if dot != -1 {
        var i := 0;
        while i < |models| && models[i].code != modelField[..dot]
          invariant 0 <= i <= |models| && models == old(models)
          invariant forall j :: 0 <= j < i ==> models[j].code != modelField[..dot]
        {
          i := i + 1;
        }
        assert i == FirstModel(models, modelField[..dot]);
        if i < |models| {
          var fields := models[i].fields;
          var j := 0;
          while j < |fields| && fields[j].code != modelField[dot + 1..]
            invariant 0 <= j <= |fields|
            invariant forall k :: 0 <= k < j ==> fields[k].code != modelField[dot + 1..]
          {
            j := j + 1;
          }
          assert j == FirstField(fields, modelField[dot + 1..]);
          if j < |fields| {
            models := models[i := models[i].(fields := fields[j := Rewritten(fields[j], w)])];
          }
        }
      }
    }

    method SetComponentDict(u: Item, code: string)
      requires At(forms, u.form, u.comp)
      modifies this`forms, this`models
      ensures forms == ApplyOne(old(forms), Patch(u.form, u.comp, u.modelField, BindTo(code)))
      ensures models == WriteField(old(models), u.modelField, BindTo(code))
    {
      hide WriteField;
      forms := Put(forms, u.form, u.comp, Bound(forms[u.form].components[u.comp], code));
      WriteModelField(u.modelField, BindTo(code));
    }

    // Binds every unlinked dropdown it can, by name first and then by the
    // mapping, and reports what it did.
    method ReconcileDropdownDicts(norm: Norm, relink: Option<map<string, string>>) returns (result: Report)
      modifies this`forms, this`models
      ensures var r := RulesFor(dicts, norm, relink);
              var items := AllUnlinked(old(forms), r.codes);
              && forms == ApplyAll(old(forms), Changes(old(forms), r))
              && models == WriteAll(old(models), Changes(old(forms), r))
              && result == Report(|Patches(items, r, true)|, |Patches(items, r, false)|, Entries(Remaining(items, r)))
    {
      hide WriteAll, ApplyAll, Patches, Remaining, AllUnlinked, Entries, Still, CodeSet, NameTable, SameShape;
      ghost var r := RulesFor(dicts, norm, relink);
      var items := FindUnlinkedDropdownComponents();
      ItemsAreThere(forms, r.codes);
      if items == [] {
        NothingToDo(forms, models, r);
        return Report(0, 0, []);
      }
      var table := BuildNameTable(norm);
      var count, still := LinkByName(items, table, norm, r);
      var byRelink := 0;
      ghost var named := Patches(items, r, true);
      StillAre(items, r);
      forall u | u in still
        ensures At(forms, u.form, u.comp)
      {
        ShapeAt(old(forms), named, u.form, u.comp);
      }
      ghost var patches := Patches(items, r, false);
      if still != [] && relink.Some? && dicts != [] {
        byRelink, still := LinkByMapping(still, relink.value, r);
        RelinkStill(items, r);
      } else {
        NoRelink(items, r, dicts);
        ApplyNone(forms, models);
      }
      ApplyAppend(old(forms), named, patches);
      WriteAppend(old(models), named, patches);
      var entries := ListEntries(still);
      result := Report(count, byRelink, entries);
    }

    method BuildNameTable(norm: Norm) returns (table: map<string, string>)
      ensures table == NameTable(dicts, norm)
    {
      hide Strip;
      table := map[];
      for k := 0 to |dicts|
        invariant table == NameTable(dicts[..k], norm)
      {
        assert dicts[..k + 1][..k] == dicts[..k];
        var code := Strip(dicts[k].code);
        var name := Strip(dicts[k].name);
        if code != "" && name != "" {
          table := SetDefault(table, name, code);
          table := SetDefault(table, norm(name), code);
        }
      }
      assert dicts[..|dicts|] == dicts;
    }

    // The first pass: by name.
    method LinkByName(items: seq<Item>, table: map<string, string>, norm: Norm, ghost r: Rules)
        returns (count: nat, still: seq<Item>)
      requires table == r.table && norm == r.norm
      requires forall u :: u in items ==> At(forms, u.form, u.comp)
      modifies this`forms, this`models
      ensures forms == ApplyAll(old(forms), Patches(items, r, true))
      ensures models == WriteAll(old(models), Patches(items, r, true))
      ensures count == |Patches(items, r, true)| && still == Still(items, r)
    {
      hide WriteField, SameShape, NameCode, ApplyOne;
      count, still := 0, [];
      for k := 0 to |items|
        invariant forms == ApplyAll(old(forms), Patches(items[..k], r, true))
        invariant models == WriteAll(old(models), Patches(items[..k], r, true))
        invariant count == |Patches(items[..k], r, true)| && still == Still(items[..k], r)
      {
        var u := items[k];
        assert items[..k + 1][..k] == items[..k];
        ghost var front := Patches(items[..k], r, true);
        var code := NameCode(u.caption, table, norm);
        if code != "" {
          ShapeAt(old(forms), front, u.form, u.comp);
          SetComponentDict(u, code);
          ghost var p := Patch(u.form, u.comp, u.modelField, BindTo(code));
          assert (front + [p])[..|front|] == front;
          count := count + 1;
        } else {
          still := still + [u];
        }
        assert front + [] == front;
      }
      assert items[..|items|] == items;
    }

    // The second pass: by the mapping.
    method LinkByMapping(items: seq<Item>, mapping: map<string, string>, ghost r: Rules)
        returns (count: nat, remaining: seq<Item>)
      requires mapping == r.mapping && r.codes == CodeSet(dicts)
      requires forall u :: u in items ==> At(forms, u.form, u.comp) && ByName(u, r) == ""
      modifies this`forms, this`models
      ensures forms == ApplyAll(old(forms), Patches(items, r, false))
      ensures models == WriteAll(old(models), Patches(items, r, false))
      ensures count == |Patches(items, r, false)| && remaining == Remaining(items, r)
    {
      hide WriteField, SameShape, ByName, Strip, CodeSet, ApplyOne;
      var valid := CodeSet(dicts);
      count, remaining := 0, [];
      for k := 0 to |items|
        invariant forms == ApplyAll(old(forms), Patches(items[..k], r, false))
        invariant models == WriteAll(old(models), Patches(items[..k], r, false))
        invariant count == |Patches(items[..k], r, false)| && remaining == Remaining(items[..k], r)
      {
        var u := items[k];
        assert items[..k + 1][..k] == items[..k];
        ghost var front := Patches(items[..k], r, false);
        if u.key in mapping && mapping[u.key] != "" && Strip(mapping[u.key]) in valid {
          var code := Strip(mapping[u.key]);
          ShapeAt(old(forms), front, u.form, u.comp);
          SetComponentDict(u, code);
          ghost var p := Patch(u.form, u.comp, u.modelField, BindTo(code));
          assert (front + [p])[..|front|] == front;
          count := count + 1;
        } else {
          remaining := remaining + [u];
        }
        assert front + [] == front;
      }
      assert items[..|items|] == items;
    }

    // Turns what is still unlinked into text inputs.
    method DowngradeUnbindableDropdowns() returns (downgraded: seq<Entry>)
      modifies this`forms, this`models
      ensures var items := AllUnlinked(old(forms), CodeSet(dicts));
              && forms == ApplyAll(old(forms), UnbindPatches(items))
              && models == WriteAll(old(models), UnbindPatches(items))
              && downgraded == Entries(items)
    {
      hide WriteField, SameShape, AllUnlinked, CodeSet, Downgraded, ApplyAll, WriteAll, UnbindPatches;
      var items := FindUnlinkedDropdownComponents();
      ItemsAreThere(forms, CodeSet(dicts));
      downgraded := [];
      NoUnbinds(forms, models);
      for k := 0 to |items|
        invariant forms == ApplyAll(old(forms), UnbindPatches(items[..k]))
        invariant models == WriteAll(old(models), UnbindPatches(items[..k]))
        invariant downgraded == Entries(items[..k])
      {
        var u := items[k];
        assert items[..k + 1][..k] == items[..k];
        ghost var front := UnbindPatches(items[..k]);
        ShapeAt(old(forms), front, u.form, u.comp);
        UnbindStep(items, k);
        ApplySnoc(old(forms), old(models), front, PatchOf(u, Unbind));
        forms := Put(forms, u.form, u.comp, Downgraded(forms[u.form].components[u.comp]));
        WriteModelField(u.modelField, Unbind);
        downgraded := downgraded + [EntryOf(u)];
      }
      assert items[..|items|] == items;
    }
  }

  method ListEntries(items: seq<Item>) returns (out: seq<Entry>)
    ensures out == Entries(items)
  {
    out := [];
    for k := 0 to |items|
      invariant out == Entries(items[..k])
    {
      assert items[..k + 1][..k] == items[..k];
      out := out + [EntryOf(items[k])];
    }
    assert items[..|items|] == items;
  }

  // ----- lemmas for the loops -----

  lemma ItemsAreThere(forms: seq<Form>, codes: set<string>)
    ensures forall u :: u in AllUnlinked(forms, codes) ==> At(forms, u.form, u.comp)
  {
    hide IsUnlinked, ItemOf;
    UnlinkedIs(forms, |forms|, codes);
  }

  lemma ShapeAt(forms: seq<Form>, ps: seq<Patch>, f: nat, k: nat)
    ensures At(ApplyAll(forms, ps), f, k) <==> At(forms, f, k)
  {
    ApplyShape(forms, ps);
  }

  lemma ApplySnoc(forms: seq<Form>, models: seq<Model>, ps: seq<Patch>, p: Patch)
    ensures ApplyAll(forms, ps + [p]) == ApplyOne(ApplyAll(forms, ps), p)
    ensures WriteAll(models, ps + [p]) == WriteField(WriteAll(models, ps), p.modelField, p.write)
  {
    hide ApplyOne, WriteField;
    assert (ps + [p])[..|ps|] == ps;
  }

  lemma UnbindStep(items: seq<Item>, k: nat)
    requires k < |items|
    ensures UnbindPatches(items[..k + 1]) == UnbindPatches(items[..k]) + [PatchOf(items[k], Unbind)]
  {
    assert items[..k + 1][..k] == items[..k];
  }

  lemma NoUnbinds(forms: seq<Form>, models: seq<Model>)
    ensures UnbindPatches([]) == [] && ApplyAll(forms, []) == forms && WriteAll(models, []) == models
  {
  }

  lemma ApplyNone(forms: seq<Form>, models: seq<Model>)
    ensures ApplyAll(forms, []) == forms && WriteAll(models, []) == models
  {
  }

  lemma NothingToDo(forms: seq<Form>, models: seq<Model>, r: Rules)
    requires AllUnlinked(forms, r.codes) == []
    ensures Changes(forms, r) == [] && ApplyAll(forms, []) == forms && WriteAll(models, []) == models
    ensures Patches([], r, true) == [] && Patches([], r, false) == [] && Entries(Remaining([], r)) == []
  {
  }

  lemma {:induction false} StillAre(items: seq<Item>, r: Rules)
    ensures forall u :: u in Still(items, r) <==> u in items && ByName(u, r) == ""
    decreases |items|
  {
    hide ByName;
    if items != [] {
      var n := |items| - 1;
      StillAre(items[..n], r);
      assert items == items[..n] + [items[n]];
    }
  }

  lemma {:induction false} RelinkStill(items: seq<Item>, r: Rules)
    ensures Patches(Still(items, r), r, false) == Patches(items, r, false)
    ensures Remaining(Still(items, r), r) == Remaining(items, r)
    decreases |items|
  {
    hide ByName, RelinkCode;
    if items != [] {
      var n := |items| - 1;
      RelinkStill(items[..n], r);
      var front := Still(items[..n], r);
      assert (front + [items[n]])[..|front|] == front;
      assert front + [] == front;
      assert Patches(items[..n], r, false) + [] == Patches(items[..n], r, false);
      assert Remaining(items[..n], r) + [] == Remaining(items[..n], r);
    }
  }

  // Without a mapping, or without dictionaries, nothing is relinked.
  lemma {:induction false} NoRelink(items: seq<Item>, r: Rules, dicts: seq<Dict>)
    requires r.codes == CodeSet(dicts)
    requires Still(items, r) == [] || r.mapping == map[] || dicts == []
    ensures Patches(items, r, false) == [] && Remaining(items, r) == Still(items, r)
    decreases |items|
  {
    hide ByName, NameTable, Strip;
    if items != [] {
      var n := |items| - 1;
      NoRelink(items[..n], r, dicts);
    }
  }

  // ----- what a reconciliation leaves -----

  // The binding that an item gets, if any.
  function Binding(u: Item, r: Rules): Option<string> {
    if ByName(u, r) != "" then Some(ByName(u, r)) else ByRelink(u, r)
  }

  predicate IsAt(u: Item, p: Patch) {
    p.form == u.form && p.comp == u.comp
  }

  lemma {:induction false} PatchOrigin(items: seq<Item>, r: Rules, byName: bool, p: Patch) returns (u: Item)
    requires p in Patches(items, r, byName)
    ensures u in items && IsAt(u, p) && p.modelField == u.modelField && Pick(u, r, byName).Some?
    decreases |items|
  {
    hide Pick;
    var n := |items| - 1;
    if p in Patches(items[..n], r, byName) {
      u := PatchOrigin(items[..n], r, byName, p);
    } else {
      u := items[n];
    }
  }

  lemma {:induction false} PatchFor(items: seq<Item>, r: Rules, byName: bool, u: Item)
    requires u in items && Pick(u, r, byName).Some?
    ensures PatchOf(u, BindTo(Pick(u, r, byName).value)) in Patches(items, r, byName)
    decreases |items|
  {
    hide Pick;
    var n := |items| - 1;
    if u != items[n] {
      assert u in items[..n];
      PatchFor(items[..n], r, byName, u);
    }
  }

  lemma {:induction false} PatchesDistinct(items: seq<Item>, r: Rules, byName: bool)
    requires Ordered(items)
    ensures DistinctPlaces(Patches(items, r, byName))
    decreases |items|
  {
    hide Pick, Ordered, IsAt, DistinctPlaces, Precedes;
    if items == [] {
      NoPlaces();
    } else {
      var n := |items| - 1;
      var front := Patches(items[..n], r, byName);
      LastIsLater(items, n);
      PatchesDistinct(items[..n], r, byName);
      forall p | p in front
        ensures !IsAt(items[n], p)
      {
        var u := PatchOrigin(items[..n], r, byName, p);
        LaterIsElsewhere(u, items[n], p);
      }
      assert front + [] == front;
      if Pick(items[n], r, byName).Some? {
        PlacesSnoc(front, items[n], PatchOf(items[n], BindTo(Pick(items[n], r, byName).value)));
      }
    }
  }

  lemma NoPlaces()
    ensures DistinctPlaces([])
  {
  }

  lemma LaterIsElsewhere(u: Item, v: Item, p: Patch)
    requires Precedes(u, v) && IsAt(u, p)
    ensures !IsAt(v, p)
  {
  }

  lemma PlacesSnoc(front: seq<Patch>, u: Item, q: Patch)
    requires DistinctPlaces(front) && IsAt(u, q) && forall p :: p in front ==> !IsAt(u, p)
    ensures DistinctPlaces(front + [q])
  {
    assert forall i :: 0 <= i < |front| ==> front[i] in front;
  }

  lemma SamePlace(items: seq<Item>, u: Item, v: Item)
    requires Ordered(items) && u in items && v in items && u.form == v.form && u.comp == v.comp
    ensures u == v
  {
    var i :| 0 <= i < |items| && items[i] == u;
    var j :| 0 <= j < |items| && items[j] == v;
    assert i < j ==> Precedes(items[i], items[j]);
    assert j < i ==> Precedes(items[j], items[i]);
  }

  lemma ChangesDistinct(items: seq<Item>, r: Rules)
    requires Ordered(items)
    ensures DistinctPlaces(ChangesOf(items, r))
  {
    hide ByName, RelinkCode, Patches, Ordered;
    var a := Patches(items, r, true);
    var b := Patches(items, r, false);
    PatchesDistinct(items, r, true);
    PatchesDistinct(items, r, false);
    forall i, j | 0 <= i < |a| && 0 <= j < |b|
      ensures !(a[i].form == b[j].form && a[i].comp == b[j].comp)
    {
      var u := PatchOrigin(items, r, true, a[i]);
      var v := PatchOrigin(items, r, false, b[j]);
      if u.form == v.form && u.comp == v.comp {
        SamePlace(items, u, v);
      }
    }
    JoinDistinct(a, b);
  }

  lemma JoinDistinct(a: seq<Patch>, b: seq<Patch>)
    requires DistinctPlaces(a) && DistinctPlaces(b)
    requires forall i, j :: 0 <= i < |a| && 0 <= j < |b| ==> !(a[i].form == b[j].form && a[i].comp == b[j].comp)
    ensures DistinctPlaces(a + b)
  {
  }

  lemma ChangeFor(items: seq<Item>, r: Rules, u: Item)
    requires u in items && Binding(u, r).Some?
    ensures PatchOf(u, BindTo(Binding(u, r).value)) in ChangesOf(items, r)
  {
    hide ByName, RelinkCode, Patches;
    PatchFor(items, r, ByName(u, r) != "", u);
  }

  lemma ChangeOrigin(items: seq<Item>, r: Rules, p: Patch) returns (u: Item)
    requires p in ChangesOf(items, r)
    ensures u in items && IsAt(u, p) && p.modelField == u.modelField && Binding(u, r).Some?
  {
    hide ByName, RelinkCode, Patches;
    if p in Patches(items, r, true) {
      u := PatchOrigin(items, r, true, p);
    } else {
      u := PatchOrigin(items, r, false, p);
    }
  }

  // The model field behind a bound dropdown gets the same dictionary, unless
  // another bound dropdown refers to the same field.
  lemma FieldFollowsDropdown(forms: seq<Form>, models: seq<Model>, r: Rules, u: Item)
    requires u in AllUnlinked(forms, r.codes) && Binding(u, r).Some?
    requires PlaceOf(models, u.modelField).Place?
    requires forall v :: v in AllUnlinked(forms, r.codes) && Binding(v, r).Some? && v != u
                         ==> PlaceOf(models, v.modelField) != PlaceOf(models, u.modelField)
    ensures var q := PlaceOf(models, u.modelField);
            var after := WriteAll(models, Changes(forms, r));
            && IsPlace(after, q.model, q.field)
            && after[q.model].fields[q.field].dict == Binding(u, r).value
            && IsSelectField(after[q.model].fields[q.field].kind)
  {
    hide PlaceOf, Binding, AllUnlinked, WriteAll, Changes, IsSelectField, IsEarlier;
    LatestBindingDecides(forms, models, r, u);
  }

  // Bindings by name are made before those by the mapping, and each in the order
  // of the dropdowns.
  predicate IsEarlier(v: Item, u: Item, r: Rules) {
    || (ByName(v, r) != "" && ByName(u, r) == "")
    || ((ByName(v, r) != "" <==> ByName(u, r) != "") && Precedes(v, u))
  }

  ghost predicate PlacesAscend(ps: seq<Patch>) {
    forall i, j :: 0 <= i < j < |ps| ==> ps[i].form < ps[j].form || (ps[i].form == ps[j].form && ps[i].comp < ps[j].comp)
  }

  lemma {:induction false} PatchesAscend(items: seq<Item>, r: Rules, byName: bool)
    requires Ordered(items)
    ensures PlacesAscend(Patches(items, r, byName))
    decreases |items|
  {
    hide Pick, Ordered;
    if items != [] {
      var n := |items| - 1;
      var front := Patches(items[..n], r, byName);
      LastIsLater(items, n);
      PatchesAscend(items[..n], r, byName);
      forall i | 0 <= i < |front|
        ensures front[i].form < items[n].form || (front[i].form == items[n].form && front[i].comp < items[n].comp)
      {
        assert front[i] in front;
        var u := PatchOrigin(items[..n], r, byName, front[i]);
      }
    }
  }

  lemma ChangePass(items: seq<Item>, r: Rules, i: nat, u: Item)
    requires Ordered(items) && i < |ChangesOf(items, r)| && u in items && IsAt(u, ChangesOf(items, r)[i])
    ensures ByName(u, r) != "" <==> i < |Patches(items, r, true)|
  {
    hide ByName, RelinkCode, Patches, Ordered;
    var p, a := ChangesOf(items, r)[i], |Patches(items, r, true)|;
    var v := PatchOrigin(items, r, i < a, p);
    SamePlace(items, u, v);
  }

  lemma LaterChange(items: seq<Item>, r: Rules, i: nat, j: nat, u: Item, v: Item)
    requires Ordered(items) && i < j < |ChangesOf(items, r)| && u in items && v in items
    requires IsAt(u, ChangesOf(items, r)[i]) && IsAt(v, ChangesOf(items, r)[j])
    ensures !IsEarlier(v, u, r)
  {
    hide ByName, Patches, Ordered;
    ChangePass(items, r, i, u);
    ChangePass(items, r, j, v);
    PatchesAscend(items, r, true);
    PatchesAscend(items, r, false);
  }

  // Of several bound dropdowns that refer to one model field, the one bound last
  // decides it.
  lemma LatestBindingDecides(forms: seq<Form>, models: seq<Model>, r: Rules, u: Item)
    requires u in AllUnlinked(forms, r.codes) && Binding(u, r).Some?
    requires PlaceOf(models, u.modelField).Place?
    requires forall v :: v in AllUnlinked(forms, r.codes) && Binding(v, r).Some? && v != u
                         ==> PlaceOf(models, v.modelField) != PlaceOf(models, u.modelField) || IsEarlier(v, u, r)
    ensures var q := PlaceOf(models, u.modelField);
            var after := WriteAll(models, Changes(forms, r));
            && IsPlace(after, q.model, q.field)
            && after[q.model].fields[q.field].dict == Binding(u, r).value
            && IsSelectField(after[q.model].fields[q.field].kind)
  {
    hide PlaceOf, Binding, AllUnlinked, ChangesOf, WriteAll, IsUnlinked, ItemOf, Ordered, IsEarlier;
    var items := AllUnlinked(forms, r.codes);
    var ps := ChangesOf(items, r);
    AllInOrder(forms, r.codes);
    ChangesDistinct(items, r);
    ChangeFor(items, r, u);
    var i :| 0 <= i < |ps| && ps[i] == PatchOf(u, BindTo(Binding(u, r).value));
    forall j | i < j < |ps|
      ensures PlaceOf(models, ps[j].modelField) != PlaceOf(models, ps[i].modelField)
    {
      var v := ChangeOrigin(items, r, ps[j]);
      LaterChange(items, r, i, j, u, v);
      assert !(ps[i].form == ps[j].form && ps[i].comp == ps[j].comp);
    }
    LastWriteWins(models, ps, i);
  }

  lemma AllInOrder(forms: seq<Form>, codes: set<string>)
    ensures Ordered(AllUnlinked(forms, codes))
  {
    hide IsUnlinked, ItemOf, Ordered;
    UnlinkedIs(forms, |forms|, codes);
  }

  // Every component after a reconciliation: a dropdown that had its dictionary,
  // like everything else that is not an unlinked dropdown, is as before.
  lemma ReconciledAt(forms: seq<Form>, r: Rules, f: nat, k: nat)
    requires At(forms, f, k)
    ensures var after := ApplyAll(forms, Changes(forms, r));
            var c := forms[f].components[k];
            var u := ItemOf(forms[f], f, k);
            && SameShape(forms, after)
            && after[f].components[k] == (if IsUnlinked(c, r.codes) && Binding(u, r).Some? then Bound(c, Binding(u, r).value) else c)
  {
    hide IsUnlinked, ItemOf, Binding, Patches, ApplyAll, Ordered, Bound, DistinctPlaces;
    var items := AllUnlinked(forms, r.codes);
    var ps := Changes(forms, r);
    var c := forms[f].components[k];
    var u := ItemOf(forms[f], f, k);
    UnlinkedIs(forms, |forms|, r.codes);
    ChangesDistinct(items, r);
    ApplyShape(forms, ps);
    ItemPlace(forms[f], f, k);
    if IsUnlinked(c, r.codes) && Binding(u, r).Some? {
      ChangeFor(items, r, u);
      var i :| 0 <= i < |ps| && ps[i] == PatchOf(u, BindTo(Binding(u, r).value));
      ApplyHere(forms, ps, i);
    } else {
      forall p | p in ps
        ensures !(p.form == f && p.comp == k)
      {
        var v := ChangeOrigin(items, r, p);
      }
      ApplyElsewhere(forms, ps, f, k);
    }
  }

  lemma ItemPlace(form: Form, f: nat, k: nat)
    requires k < |form.components|
    ensures ItemOf(form, f, k).form == f && ItemOf(form, f, k).comp == k
  {
  }

  // ----- which dropdowns are left unlinked -----

  // An item whose binding, if it gets one at all, is to the empty code.
  predicate StaysOpen(u: Item, r: Rules) {
    Binding(u, r).None? || Binding(u, r).value == ""
  }

  function Open(items: seq<Item>, r: Rules): seq<Item> {
    if items == [] then []
    else Open(items[..|items| - 1], r) + (if StaysOpen(items[|items| - 1], r) then [items[|items| - 1]] else [])
  }

  lemma StripTwice(s: string)
    ensures Strip(Strip(s)) == Strip(s)
  {
    hide Strip;
    var pre, post := StripParts(s);
    StripTrimmed(Strip(s));
  }

  lemma StripNothing()
    ensures Strip("") == ""
  {
  }

  // A binding is to a stripped code of a defined dictionary, and only a mapping
  // can lead to an empty one.
  lemma BindingIsDefined(u: Item, dicts: seq<Dict>, norm: Norm, relink: Option<map<string, string>>)
    ensures var r := RulesFor(dicts, norm, relink);
            && (Binding(u, r).Some? ==> Binding(u, r).value in r.codes && Strip(Binding(u, r).value) == Binding(u, r).value)
            && (ByName(u, r) != "" ==> Binding(u, r) == Some(ByName(u, r)))
  {
    hide Strip, NameTable;
    var r := RulesFor(dicts, norm, relink);
    if ByName(u, r) != "" {
      var key := if u.caption in r.table then u.caption else norm(u.caption);
      NameTableIs(dicts, norm, key);
      var i :| 0 <= i < |dicts| && Answers(dicts[i], key, norm) && r.table[key] == Strip(dicts[i].code);
      StripNothing();
      StripTwice(dicts[i].code);
      assert dicts[i] in dicts;
    } else if ByRelink(u, r).Some? {
      StripTwice(r.mapping[u.key]);
    }
  }

  lemma BoundIsLinked(c: Component, code: string, codes: set<string>)
    requires IsDropdown(c) && code in codes && Strip(code) == code
    ensures IsUnlinked(Bound(c, code), codes) <==> code == ""
  {
    hide Strip;
    StripNothing();
  }

  lemma SameItem(a: Form, b: Form, f: nat, k: nat)
    requires a.code == b.code && k < |a.components| && k < |b.components|
    requires b.components[k] == a.components[k] || exists code :: b.components[k] == Bound(a.components[k], code)
    ensures ItemOf(a, f, k) == ItemOf(b, f, k)
  {
    hide Find, LastPart;
  }

  // Which components are unlinked after the reconciliation.
  lemma OpenAt(forms: seq<Form>, dicts: seq<Dict>, norm: Norm, relink: Option<map<string, string>>, f: nat, k: nat)
    requires At(forms, f, k)
    ensures var r := RulesFor(dicts, norm, relink);
            var after := ApplyAll(forms, Changes(forms, r));
            && SameShape(forms, after)
            && (IsUnlinked(after[f].components[k], r.codes)
                <==> IsUnlinked(forms[f].components[k], r.codes) && StaysOpen(ItemOf(forms[f], f, k), r))
            && ItemOf(after[f], f, k) == ItemOf(forms[f], f, k)
  {
    hide Strip, ApplyAll, Changes, Binding, ItemOf, IsUnlinked, RulesFor;
    var r := RulesFor(dicts, norm, relink);
    var after := ApplyAll(forms, Changes(forms, r));
    var c := forms[f].components[k];
    var u := ItemOf(forms[f], f, k);
    ReconciledAt(forms, r, f, k);
    BindingIsDefined(u, dicts, norm, relink);
    SameItem(forms[f], after[f], f, k);
    UnlinkedIsDropdown(c, r.codes);
    if IsUnlinked(c, r.codes) && Binding(u, r).Some? {
      BoundIsLinked(c, Binding(u, r).value, r.codes);
    }
  }

  lemma UnlinkedIsDropdown(c: Component, codes: set<string>)
    ensures IsUnlinked(c, codes) ==> IsDropdown(c)
  {
  }

  lemma {:induction false} OpenIs(items: seq<Item>, r: Rules)
    ensures forall u :: u in Open(items, r) <==> u in items && StaysOpen(u, r)
    ensures Ordered(items) ==> Ordered(Open(items, r))
    decreases |items|
  {
    hide StaysOpen, Precedes, Ordered;
    if items == [] {
      NoneOrdered();
    } else {
      var n := |items| - 1;
      OpenIs(items[..n], r);
      assert items == items[..n] + [items[n]];
      if Ordered(items) {
        LastIsLater(items, n);
        OrderedSnoc(Open(items[..n], r), items[n]);
        assert Open(items[..n], r) + [] == Open(items[..n], r);
      }
    }
  }

  lemma NoneOrdered()
    ensures Ordered([])
  {
  }

  lemma LastIsLater(items: seq<Item>, n: nat)
    requires |items| == n + 1 && Ordered(items)
    ensures Ordered(items[..n]) && forall u :: u in items[..n] ==> Precedes(u, items[n])
  {
    forall u | u in items[..n]
      ensures Precedes(u, items[n])
    {
      var j :| 0 <= j < n && items[..n][j] == u;
      assert Precedes(items[j], items[n]);
    }
  }

  lemma OrderedSnoc(front: seq<Item>, u: Item)
    ensures Ordered(front) && (forall v :: v in front ==> Precedes(v, u)) ==> Ordered(front + [u])
  {
  }

  // Two ordered lists of the same items are the same list.
  lemma {:induction false} OrderedIsUnique(a: seq<Item>, b: seq<Item>)
    requires Ordered(a) && Ordered(b)
    requires forall u :: u in a <==> u in b
    ensures a == b
    decreases |a|
  {
    FirstItem(a);
    FirstItem(b);
    if a != [] && b != [] {
      assert a[0] in b && b[0] in a;
      assert a[0] == b[0];
      forall u
        ensures u in a[1..] <==> u in b[1..]
      {
        TailItems(a, u);
        TailItems(b, u);
      }
      OrderedIsUnique(a[1..], b[1..]);
      assert a == [a[0]] + a[1..];
      assert b == [b[0]] + b[1..];
    }
  }

  lemma FirstItem(a: seq<Item>)
    ensures a == [] || a[0] in a
  {
  }

  lemma TailItems(a: seq<Item>, u: Item)
    requires Ordered(a) && a != []
    ensures u in a[1..] <==> u in a && u != a[0]
  {
    if u in a && u != a[0] {
      var i :| 0 <= i < |a| && a[i] == u;
      assert a[1..][i - 1] == u;
    }
    if u in a[1..] {
      var i :| 0 <= i < |a[1..]| && a[1..][i] == u;
      assert a[i + 1] == u && Precedes(a[0], a[i + 1]);
    }
  }

  // What a second look finds after the reconciliation.
  lemma UnlinkedAfter(forms: seq<Form>, dicts: seq<Dict>, norm: Norm, relink: Option<map<string, string>>)
    ensures var r := RulesFor(dicts, norm, relink);
            AllUnlinked(ApplyAll(forms, Changes(forms, r)), r.codes) == Open(AllUnlinked(forms, r.codes), r)
  {
    hide RulesFor, ApplyAll, Changes, StaysOpen, ItemOf, IsUnlinked, Ordered, Open, SameShape;
    var r := RulesFor(dicts, norm, relink);
    var after := ApplyAll(forms, Changes(forms, r));
    var items := AllUnlinked(forms, r.codes);
    UnlinkedIs(forms, |forms|, r.codes);
    UnlinkedIs(after, |after|, r.codes);
    OpenIs(items, r);
    forall u
      ensures u in AllUnlinked(after, r.codes) <==> u in Open(items, r)
    {
      ShapeAt(forms, Changes(forms, r), u.form, u.comp);
      if At(forms, u.form, u.comp) {
        OpenAt(forms, dicts, norm, relink, u.form, u.comp);
      }
    }
    OrderedIsUnique(AllUnlinked(after, r.codes), Open(items, r));
  }

  // ----- the counts and the two lists -----

  lemma {:induction false} CountsAddUp(items: seq<Item>, r: Rules)
    ensures |Patches(items, r, true)| + |Patches(items, r, false)| + |Remaining(items, r)| == |items|
    ensures |Entries(items)| == |items|
    decreases |items|
  {
    hide ByName, RelinkCode;
    if items != [] {
      CountsAddUp(items[..|items| - 1], r);
    }
  }

  // An item that the mapping sends to a blank code.
  predicate SentToBlank(u: Item, r: Rules) {
    && ByName(u, r) == ""
    && u.key in r.mapping && r.mapping[u.key] != "" && Strip(r.mapping[u.key]) == ""
  }

  lemma {:induction false} OpenAndRemaining(items: seq<Item>, r: Rules)
    ensures |Remaining(items, r)| <= |Open(items, r)|
    ensures if "" in r.codes && exists u :: u in items && SentToBlank(u, r)
            then |Remaining(items, r)| < |Open(items, r)|
            else Remaining(items, r) == Open(items, r)
    decreases |items|
  {
    hide ByName, Strip;
    if items != [] {
      var n := |items| - 1;
      OpenAndRemaining(items[..n], r);
      assert items == items[..n] + [items[n]];
      OneOpen(items[n], r);
      hide SentToBlank, StaysOpen, ByRelink;
      assert items[n] in items;
      if exists u :: u in items && SentToBlank(u, r) {
        var u :| u in items && SentToBlank(u, r);
        assert u == items[n] || u in items[..n];
      }
    }
  }

  lemma OneOpen(u: Item, r: Rules)
    ensures StaysOpen(u, r) <==> (ByName(u, r) == "" && ByRelink(u, r).None?) || ("" in r.codes && SentToBlank(u, r))
    ensures "" in r.codes && SentToBlank(u, r) ==> ByRelink(u, r).Some?
  {
    hide Strip;
  }

  // What is downgraded after a reconciliation is what the reconciliation
  // reported as unlinked, unless some dictionary has a blank code and the
  // mapping sends a dropdown to it: such a dropdown counts as relinked and is
  // downgraded all the same.
  lemma DowngradedAreTheUnlinked(forms: seq<Form>, dicts: seq<Dict>, norm: Norm, relink: Option<map<string, string>>)
    ensures var r := RulesFor(dicts, norm, relink);
            var items := AllUnlinked(forms, r.codes);
            var downgraded := Entries(AllUnlinked(ApplyAll(forms, Changes(forms, r)), r.codes));
            downgraded == Entries(Remaining(items, r))
            <==> !("" in r.codes && exists u :: u in items && SentToBlank(u, r))
  {
    hide RulesFor, ApplyAll, Changes, AllUnlinked, Open, Remaining, Entries, SentToBlank;
    var r := RulesFor(dicts, norm, relink);
    var items := AllUnlinked(forms, r.codes);
    UnlinkedAfter(forms, dicts, norm, relink);
    OpenAndRemaining(items, r);
    CountsAddUp(Open(items, r), r);
    CountsAddUp(Remaining(items, r), r);
  }

  // ----- the whole repair -----

  lemma {:induction false} UnbindPatchesAre(items: seq<Item>)
    ensures |UnbindPatches(items)| == |items|
    ensures forall i :: 0 <= i < |items| ==> UnbindPatches(items)[i] == PatchOf(items[i], Unbind)
    decreases |items|
  {
    if items != [] {
      UnbindPatchesAre(items[..|items| - 1]);
    }
  }

  // A downgrade changes the unlinked dropdowns and nothing else.
  lemma DowngradedAt(forms: seq<Form>, codes: set<string>, f: nat, k: nat)
    requires At(forms, f, k)
    ensures var after := ApplyAll(forms, UnbindPatches(AllUnlinked(forms, codes)));
            var c := forms[f].components[k];
            && SameShape(forms, after)
            && after[f].components[k] == (if IsUnlinked(c, codes) then Downgraded(c) else c)
  {
    hide IsUnlinked, ItemOf, ApplyAll, Downgraded, UnbindPatches, AllUnlinked;
    var items := AllUnlinked(forms, codes);
    var ps := UnbindPatches(items);
    UnlinkedOf(forms, codes);
    UnbindPatchesAre(items);
    ItemPlace(forms[f], f, k);
    ApplyShape(forms, ps);
    assert DistinctPlaces(ps) by {
      forall i, j | 0 <= i < j < |ps|
        ensures !(ps[i].form == ps[j].form && ps[i].comp == ps[j].comp)
      {
        assert Precedes(items[i], items[j]);
      }
    }
    hide Ordered;
    if IsUnlinked(forms[f].components[k], codes) {
      var i :| 0 <= i < |items| && items[i] == ItemOf(forms[f], f, k);
      ApplyHere(forms, ps, i);
    } else {
      forall p | p in ps
        ensures !(p.form == f && p.comp == k)
      {
        var i :| 0 <= i < |ps| && ps[i] == p;
        assert items[i] in items;
      }
      ApplyElsewhere(forms, ps, f, k);
    }
  }

  lemma UnlinkedOf(forms: seq<Form>, codes: set<string>)
    ensures Ordered(AllUnlinked(forms, codes))
    ensures forall u :: u in AllUnlinked(forms, codes)
              <==> At(forms, u.form, u.comp) && IsUnlinked(forms[u.form].components[u.comp], codes)
                   && u == ItemOf(forms[u.form], u.form, u.comp)
  {
    hide IsUnlinked, ItemOf;
    UnlinkedIs(forms, |forms|, codes);
  }

  lemma TextIsNoDropdown(c: Component, codes: set<string>)
    ensures !IsUnlinked(Downgraded(c), codes)
  {
    assert |TEXT_COMPONENT| == 15 && |SELECT_SINGLE| == 24 && |SELECT| == 17;
    assert |FIELD_SELECT| == 4 && |FIELD_SELECT_SINGLE| == 4;
  }

  lemma SomeItem(items: seq<Item>)
    ensures items == [] || items[0] in items
  {
  }

  // After a downgrade no dropdown is unlinked.
  lemma NoneIsLeft(forms: seq<Form>, codes: set<string>)
    ensures AllUnlinked(ApplyAll(forms, UnbindPatches(AllUnlinked(forms, codes))), codes) == []
  {
    hide IsUnlinked, ItemOf, ApplyAll, Downgraded, UnbindPatches, AllUnlinked, SameShape, Ordered;
    var ps := UnbindPatches(AllUnlinked(forms, codes));
    var after := ApplyAll(forms, ps);
    UnlinkedOf(after, codes);
    SomeItem(AllUnlinked(after, codes));
    forall u | u in AllUnlinked(after, codes)
      ensures false
    {
      ShapeAt(forms, ps, u.form, u.comp);
      DowngradedAt(forms, codes, u.form, u.comp);
      TextIsNoDropdown(forms[u.form].components[u.comp], codes);
    }
  }

  // A reconciliation and then a downgrade: no unlinked dropdown remains, and a
  // component that was not an unlinked dropdown is untouched. An unlinked one is
  // bound to the dictionary of its name or of the mapping, or turned into a
  // text input.
  lemma RepairIsComplete(forms: seq<Form>, dicts: seq<Dict>, norm: Norm, relink: Option<map<string, string>>)
    ensures var r := RulesFor(dicts, norm, relink);
            var between := ApplyAll(forms, Changes(forms, r));
            var after := ApplyAll(between, UnbindPatches(AllUnlinked(between, r.codes)));
            && AllUnlinked(after, r.codes) == []
            && SameShape(forms, after)
            && forall f: nat, k: nat :: At(forms, f, k) ==> RepairedAt(forms[f], after[f], f, k, r)
  {
    hide RulesFor, ApplyAll, Changes, AllUnlinked, UnbindPatches, RepairedAt;
    var r := RulesFor(dicts, norm, relink);
    var between := ApplyAll(forms, Changes(forms, r));
    var ps := UnbindPatches(AllUnlinked(between, r.codes));
    NoneIsLeft(between, r.codes);
    ApplyShape(forms, Changes(forms, r));
    ApplyShape(between, ps);
    forall f: nat, k: nat | At(forms, f, k)
      ensures RepairedAt(forms[f], ApplyAll(between, ps)[f], f, k, r)
    {
      RepairAt(forms, dicts, norm, relink, f, k);
    }
  }

  ghost predicate RepairedAt(form: Form, after: Form, f: nat, k: nat, r: Rules) {
    k < |form.components| && k < |after.components| &&
    var c := form.components[k];
    var x := after.components[k];
    var u := ItemOf(form, f, k);
    if !IsUnlinked(c, r.codes) then x == c
    else if Binding(u, r).None? then x == Downgraded(c)
    else if Binding(u, r).value == "" then x == Downgraded(Bound(c, ""))
    else x == Bound(c, Binding(u, r).value) && Binding(u, r).value in r.codes
  }

  lemma RepairAt(forms: seq<Form>, dicts: seq<Dict>, norm: Norm, relink: Option<map<string, string>>, f: nat, k: nat)
    requires At(forms, f, k)
    ensures var r := RulesFor(dicts, norm, relink);
            var between := ApplyAll(forms, Changes(forms, r));
            var after := ApplyAll(between, UnbindPatches(AllUnlinked(between, r.codes)));
            f < |after| && RepairedAt(forms[f], after[f], f, k, r)
  {
    hide RulesFor, ApplyAll, Changes, AllUnlinked, UnbindPatches, IsUnlinked, Binding, Downgraded, Bound, ItemOf;
    var r := RulesFor(dicts, norm, relink);
    var between := ApplyAll(forms, Changes(forms, r));
    ReconciledAt(forms, r, f, k);
    OpenAt(forms, dicts, norm, relink, f, k);
    BindingIsDefined(ItemOf(forms[f], f, k), dicts, norm, relink);
    DowngradedAt(between, r.codes, f, k);
  }

  lemma BlankStrips()
    ensures Strip(" ") == "" && Strip("") == ""
  {
    assert " "[1..] == "";
  }

  // The case apart: a dictionary with a blank code, and a mapping that sends a
  // dropdown to it. Nothing is reported as unlinked, and the dropdown is
  // downgraded.
  lemma BlankCodeIsAccepted(norm: Norm)
    ensures var c := Component(SELECT, "", "", "", "Status", "", "", "", "");
            var forms := [Form("f", [c])];
            var r := RulesFor([Dict(" ", "Kinds")], norm, Some(map["f::Status" := " "]));
            var items := AllUnlinked(forms, r.codes);
            && Entries(Remaining(items, r)) == []
            && |Patches(items, r, false)| == 1
            && Entries(AllUnlinked(ApplyAll(forms, Changes(forms, r)), r.codes)) == [Entry("Status", "", "f")]
  {
    hide Strip, ApplyAll, Changes, RulesFor;
    var c := Component(SELECT, "", "", "", "Status", "", "", "", "");
    var forms := [Form("f", [c])];
    var dicts := [Dict(" ", "Kinds")];
    var relink := Some(map["f::Status" := " "]);
    var r := RulesFor(dicts, norm, relink);
    BlankStrips();
    BlankRules(dicts, norm, relink);
    var u := Item("f::Status", "f", "Status", "", 0, 0);
    assert ItemOf(forms[0], 0, 0) == u by {
      assert "f" + "::" + "Status" == "f::Status";
      hide Find, LastPart;
    }
    assert IsUnlinked(c, r.codes);
    var items := AllUnlinked(forms, r.codes);
    OneUnlinked(forms[0], u, r.codes);
    assert forms == [forms[0]];
    assert ByName(u, r) == "" && ByRelink(u, r) == Some("");
    OneItem(u, r);
    UnlinkedAfter(forms, dicts, norm, relink);
  }

  lemma OneUnlinked(form: Form, u: Item, codes: set<string>)
    requires |form.components| == 1 && IsUnlinked(form.components[0], codes) && u == ItemOf(form, 0, 0)
    ensures AllUnlinked([form], codes) == [u]
  {
    hide IsUnlinked, ItemOf;
    assert InForm(form, 0, 0, codes) == [];
    assert InForm(form, 0, 1, codes) == [u];
    assert Unlinked([form], 0, codes) == [];
    assert Unlinked([form], 1, codes) == [] + InForm(form, 0, 1, codes);
  }

  lemma OneItem(u: Item, r: Rules)
    requires ByName(u, r) == "" && ByRelink(u, r) == Some("")
    ensures Remaining([u], r) == [] && Open([u], r) == [u] && |Patches([u], r, false)| == 1
    ensures Entries([]) == [] && Entries([u]) == [EntryOf(u)]
  {
    hide ByName, ByRelink;
    assert [u][..0] == [];
  }

  lemma BlankRules(dicts: seq<Dict>, norm: Norm, relink: Option<map<string, string>>)
    requires dicts == [Dict(" ", "Kinds")] && relink.Some?
    ensures var r := RulesFor(dicts, norm, relink);
            r.table == map[] && r.mapping == relink.value && "" in r.codes && r.norm == norm
  {
    hide Strip;
    BlankStrips();
    assert dicts[..0] == [];
    assert dicts[0] in dicts;
    assert !Usable(dicts[0]);
    assert NameTable(dicts[..0], norm) == map[];
  }

  // ----- what the entries of a component say -----

  lemma DropdownSays(c: Component)
    ensures IsDropdown(c) <==>
            exists t :: IsFirstGiven([c.componentType, c.kind], t)
                        && t in {"FORM_SELECT_INPUT_SINGLE", "FORM_SELECT_INPUT", "下拉单选", "下拉多选"}
  {
    hide IsFirstGiven;
    var t := Or(c.componentType, c.kind);
    FirstOfTwo(c.componentType, c.kind);
    forall u
      ensures IsFirstGiven([c.componentType, c.kind], u) ==> u == t
    {
      EachIsFirstGiven([c.componentType, c.kind], u, t);
    }
  }

  ghost predicate IsDefined(dicts: seq<Dict>, code: string) {
    exists d :: d in dicts && d.code != "" && Strip(d.code) == code
  }

  // A dropdown is unlinked when its reference is blank or leads to no
  // dictionary with a code.
  lemma UnlinkedSays(c: Component, dicts: seq<Dict>, ref: string)
    requires IsFirstGiven([c.dict, c.dictCode], ref)
    ensures IsUnlinked(c, CodeSet(dicts)) <==> IsDropdown(c) && (Strip(ref) == "" || !IsDefined(dicts, Strip(ref)))
  {
    hide IsFirstGiven, Strip, IsDropdown;
    FirstOfTwo(c.dict, c.dictCode);
    EachIsFirstGiven([c.dict, c.dictCode], ref, Or(c.dict, c.dictCode));
    DefinedIs(dicts, Strip(ref));
  }

  lemma DefinedIs(dicts: seq<Dict>, code: string)
    ensures code in CodeSet(dicts) <==> IsDefined(dicts, code)
  {
    hide Strip;
  }

  // What stands after the last dot.
  ghost predicate IsLastPart(s: string, p: string) {
    '.' !in p && (s == p || exists pre: string :: s == pre + "." + p)
  }

  lemma NoDotFound(s: string)
    requires forall i: nat :: !Occurs(s, ".", i)
    ensures '.' !in s
  {
    forall k | 0 <= k < |s|
      ensures s[k] != '.'
    {
      assert !Occurs(s, ".", k);
      assert s[k..k + 1] == [s[k]];
    }
  }

  lemma LastPartOfRest(s: string, pre: string, rest: string, p: string)
    requires s == pre + "." + rest && IsLastPart(rest, p)
    ensures IsLastPart(s, p)
  {
    if rest != p {
      var more: string :| rest == more + "." + p;
      assert s == (pre + "." + more) + "." + p;
    }
  }

  lemma {:induction false} LastPartSays(s: string)
    ensures IsLastPart(s, LastPart(s))
    decreases |s|
  {
    hide Find, Occurs, IsLastPart;
    FindIsFirst(s, ".");
    var i := Find(s, ".");
    if i == -1 {
      NoDotFound(s);
      WholeIsLast(s);
    } else {
      DotAt(s, i);
      LastPartSays(s[i + 1..]);
      LastPartOfRest(s, s[..i], s[i + 1..], LastPart(s[i + 1..]));
    }
  }

  lemma WholeIsLast(s: string)
    requires '.' !in s
    ensures IsLastPart(s, s)
  {
  }

  lemma DotAt(s: string, i: nat)
    requires Occurs(s, ".", i)
    ensures i < |s| && s == s[..i] + "." + s[i + 1..]
  {
    assert s[i..i + 1] == ".";
  }

  // The caption is the first of label, name, last part of the model field and
  // code; the key is the model field, or form and caption.
  lemma ItemSays(form: Form, f: nat, k: nat)
    requires k < |form.components|
    ensures var c, u := form.components[k], ItemOf(form, f, k);
            && (exists part :: IsLastPart(c.modelField, part) && IsFirstGiven([c.caption, c.name, part, c.code], u.caption))
            && u.modelField == c.modelField && u.formCode == form.code && u.form == f && u.comp == k
            && u.key == (if c.modelField != "" then c.modelField else form.code + "::" + u.caption)
  {
    hide IsFirstGiven, IsLastPart, LastPart;
    var c := form.components[k];
    var part := LastPart(c.modelField);
    LastPartSays(c.modelField);
    FirstOfThree(c.name, part, c.code);
    OrIsFirstGiven(c.caption, [c.name, part, c.code], Or(c.name, Or(part, c.code)));
    assert [c.caption] + [c.name, part, c.code] == [c.caption, c.name, part, c.code];
  }

  // ----- what is written -----

  // A bound dropdown carries the code twice and is otherwise as before; a
  // downgraded one is a text input without dictionary and options.
  lemma ChangedSays(c: Component, w: Write)
    ensures var r := Changed(c, w);
            && r.kind == c.kind && r.caption == c.caption && r.name == c.name && r.code == c.code && r.modelField == c.modelField
            && (w.BindTo? ==> r.dict == r.dictCode == w.code && r.componentType == c.componentType && r.options == c.options)
            && (w.Unbind? ==> r.dict == r.dictCode == r.options == "" && r.componentType == "FORM_TEXT_INPUT")
  {
  }

  // A field keeps its kind where that fits the write.
  lemma RewrittenSays(x: Field, w: Write)
    ensures var r := Rewritten(x, w);
            var select := x.kind == "下拉单选" || x.kind == "下拉多选";
            && r.code == x.code
            && (w.BindTo? ==> r.dict == w.code && r.kind == (if select then x.kind else "下拉单选"))
            && (w.Unbind? ==> r.dict == "" && r.kind == (if select then "单行输入" else x.kind))
  {
  }

  ghost predicate IsFirstModel(models: seq<Model>, code: string, i: nat) {
    i < |models| && models[i].code == code && forall j :: 0 <= j < i ==> models[j].code != code
  }

  ghost predicate IsFirstField(fields: seq<Field>, code: string, i: nat) {
    i < |fields| && fields[i].code == code && forall j :: 0 <= j < i ==> fields[j].code != code
  }

  // A reference names model and field by what stands before and after its first
  // dot.
  lemma PlaceSays(models: seq<Model>, m: string, x: string)
    requires '.' !in m
    ensures forall i: nat, j: nat :: PlaceOf(models, m + "." + x) == Place(i, j) <==>
              IsFirstModel(models, m, i) && IsFirstField(models[i].fields, x, j)
  {
    hide Find, FirstModel, FirstField;
    var s := m + "." + x;
    assert Occurs(s, ".", |m|);
    forall j: nat | j < |m|
      ensures !Occurs(s, ".", j)
    {
      assert s[j] == m[j];
      assert s[j..j + 1][0] == s[j];
    }
    FindUnique(s, ".", |m|);
    assert s[..|m|] == m && s[|m| + 1..] == x;
  }

  lemma NoDotNoPlace(models: seq<Model>, s: string)
    requires '.' !in s
    ensures PlaceOf(models, s).NoPlace?
  {
    hide Find;
    FindIsFirst(s, ".");
    forall k: nat | k < |s|
      ensures !Occurs(s, ".", k)
    {
      assert s[k] != '.';
      assert s[k..k + 1][0] == s[k];
    }
  }

  // ----- where a binding comes from -----

  // A dictionary answers to its name, as it is or normalised, when both its
  // name and its code are not blank.
  ghost predicate AnswersTo(d: Dict, key: string, norm: Norm) {
    Strip(d.code) != "" && Strip(d.name) != "" && (key == Strip(d.name) || key == norm(Strip(d.name)))
  }

  ghost predicate LeadsTo(dicts: seq<Dict>, key: string, norm: Norm, code: string) {
    exists i :: 0 <= i < |dicts| && AnswersTo(dicts[i], key, norm) && code == Strip(dicts[i].code)
                && forall j :: 0 <= j < i ==> !AnswersTo(dicts[j], key, norm)
  }

  ghost predicate Unanswered(dicts: seq<Dict>, key: string, norm: Norm) {
    forall d :: d in dicts ==> !AnswersTo(d, key, norm)
  }

  // By name: the first dictionary that answers to the caption, or else to the
  // normalised caption.
  ghost predicate NamedBy(u: Item, dicts: seq<Dict>, norm: Norm, code: string) {
    || LeadsTo(dicts, u.caption, norm, code)
    || (Unanswered(dicts, u.caption, norm) && LeadsTo(dicts, norm(u.caption), norm, code))
  }

  // By the mapping, where no name answers: the stripped code it gives, when
  // that is the code of a dictionary.
  ghost predicate MappedTo(u: Item, dicts: seq<Dict>, norm: Norm, relink: Option<map<string, string>>, code: string) {
    && Unanswered(dicts, u.caption, norm) && Unanswered(dicts, norm(u.caption), norm)
    && relink.Some? && u.key in relink.value && relink.value[u.key] != ""
    && code == Strip(relink.value[u.key]) && IsDefined(dicts, code)
  }

  lemma TableLeads(dicts: seq<Dict>, norm: Norm, key: string)
    ensures var t := NameTable(dicts, norm);
            && (key !in t <==> Unanswered(dicts, key, norm))
            && (forall code :: LeadsTo(dicts, key, norm, code) <==> key in t && t[key] == code)
            && (key in t ==> t[key] != "")
  {
    hide Strip, NameTable;
    NameTableIs(dicts, norm, key);
    forall d: Dict
      ensures Answers(d, key, norm) <==> AnswersTo(d, key, norm)
    {
    }
    var t := NameTable(dicts, norm);
    if key in t {
      var i :| 0 <= i < |dicts| && Answers(dicts[i], key, norm) && t[key] == Strip(dicts[i].code)
               && forall j :: 0 <= j < i ==> !Answers(dicts[j], key, norm);
      forall code
        ensures LeadsTo(dicts, key, norm, code) <==> t[key] == code
      {
        if LeadsTo(dicts, key, norm, code) {
          var l :| 0 <= l < |dicts| && AnswersTo(dicts[l], key, norm) && code == Strip(dicts[l].code)
                   && forall j :: 0 <= j < l ==> !AnswersTo(dicts[j], key, norm);
          assert l == i;
        }
      }
    }
  }

  // The binding an item gets.
  lemma BindingSays(u: Item, dicts: seq<Dict>, norm: Norm, relink: Option<map<string, string>>, code: string)
    ensures Binding(u, RulesFor(dicts, norm, relink)) == Some(code) <==>
            NamedBy(u, dicts, norm, code) || MappedTo(u, dicts, norm, relink, code)
  {
    hide Strip, NameTable, LeadsTo, Unanswered, CodeSet, IsDefined;
    TableLeads(dicts, norm, u.caption);
    TableLeads(dicts, norm, norm(u.caption));
    DefinedIs(dicts, code);
  }

  // What the callers are told, item by item.
  lemma {:induction false} EntriesSay(items: seq<Item>)
    ensures |Entries(items)| == |items|
    ensures forall i :: 0 <= i < |items| ==>
              var e, u := Entries(items)[i], items[i];
              e.caption == u.caption && e.modelField == u.modelField && e.formCode == u.formCode
    decreases |items|
  {
    if items != [] {
      EntriesSay(items[..|items| - 1]);
    }
  }
}
