/** The card compiler: from a typed card to A2UI components whose references form a tree rooted at "root". */
module DynamicCards {
  import opened Sequences
  import opened Strings

  datatype Choice = Choice(caption: string, value: string)

  datatype CardSpec = CardSpec(
    title: string, message: string, helpTexts: seq<string>, choices: seq<Choice>, responseField: string)

  datatype Component =
    | Card(id: string, child: string)
    | Column(id: string, children: seq<string>)
    | Text(id: string, text: string, heading: bool)
    | Button(id: string, child: string, eventName: string, responseField: string, value: string)
  {
    function References(): seq<string> {
      match this
      case Card(_, child) => [child]
      case Column(_, children) => children
      case Text(_, _, _) => []
      case Button(_, child, _, _, _) => [child]
    }
  }

  /** The components of a card by what they are for; the text of the id is its name. */
  datatype Slot =
    | Root | Content | Title | Message
    | Help(n: nat) | ChoiceLabel(n: nat) | ChoiceButton(n: nat)

  function Name(slot: Slot): string {
    match slot
    case Root => "root"
    case Content => "content"
    case Title => "title"
    case Message => "message"
    case Help(n) => "help-" + Decimal(n)
    case ChoiceLabel(n) => "choice-" + Decimal(n) + "-label"
    case ChoiceButton(n) => "choice-" + Decimal(n)
  }

  // ---------- What is compiled, in order ----------

  function HelpComponents(texts: seq<string>): (r: seq<Component>)
    ensures |r| == |texts|
  {
    if texts == [] then []
    else
      var n := |texts| - 1;
      HelpComponents(texts[..n]) + [Text(Name(Help(n)), texts[n], false)]
  }

  function ChoiceComponents(choices: seq<Choice>, field: string, surface: string): (r: seq<Component>)
    ensures |r| == 2 * |choices|
  {
    if choices == [] then []
    else
      var n := |choices| - 1;
      ChoiceComponents(choices[..n], field, surface)
      + [Text(Name(ChoiceLabel(n)), choices[n].caption, false),
         Button(Name(ChoiceButton(n)), Name(ChoiceLabel(n)), surface, field, choices[n].value)]
  }

  function HelpNames(count: nat): (r: seq<string>)
    ensures |r| == count
  {
    if count == 0 then [] else HelpNames(count - 1) + [Name(Help(count - 1))]
  }

  function ButtonNames(count: nat): (r: seq<string>)
    ensures |r| == count
  {
    if count == 0 then [] else ButtonNames(count - 1) + [Name(ChoiceButton(count - 1))]
  }

  function ContentChildren(spec: CardSpec): seq<string> {
    ["title", "message"] + HelpNames(|spec.helpTexts|) + ButtonNames(|spec.choices|)
  }

  function CompiledCard(spec: CardSpec, surface: string): (r: seq<Component>)
    ensures |r| == Count(spec)
  {
    [Card("root", "content"), Column("content", ContentChildren(spec)),
     Text("title", spec.title, true), Text("message", spec.message, false)]
    + HelpComponents(spec.helpTexts)
    + ChoiceComponents(spec.choices, spec.responseField, surface)
  }

  function Count(spec: CardSpec): nat {
    4 + |spec.helpTexts| + 2 * |spec.choices|
  }

  method CompileDynamicCard(spec: CardSpec, surface: string) returns (r: seq<Component>)
    ensures r == CompiledCard(spec, surface)
    ensures |r| == 4 + |spec.helpTexts| + 2 * |spec.choices|
  {
    var components := [
      Card("root", "content"), Text("title", spec.title, true), Text("message", spec.message, false)];
    var children := ["title", "message"];
    components, children := AppendHelp(spec.helpTexts, components, children);
    components, children := AppendChoices(spec.choices, spec.responseField, surface, components, children);
    r := [components[0], Column("content", children)] + components[1..];
  }

  method AppendHelp(texts: seq<string>, components0: seq<Component>, children0: seq<string>)
    returns (components: seq<Component>, children: seq<string>)
    ensures components == components0 + HelpComponents(texts)
    ensures children == children0 + HelpNames(|texts|)
  {
    components, children := components0, children0;
    for i := 0 to |texts|
      invariant components == components0 + HelpComponents(texts[..i])
      invariant children == children0 + HelpNames(i)
    {
      var id := Name(Help(i));
      components := components + [Text(id, texts[i], false)];
      children := children + [id];
      assert texts[..i + 1][..i] == texts[..i];
    }
    assert texts[..|texts|] == texts;
  }

  method AppendChoices(
    choices: seq<Choice>, field: string, surface: string, components0: seq<Component>, children0: seq<string>)
    returns (components: seq<Component>, children: seq<string>)
    ensures components == components0 + ChoiceComponents(choices, field, surface)
    ensures children == children0 + ButtonNames(|choices|)
  {
    components, children := components0, children0;
    for i := 0 to |choices|
      invariant components == components0 + ChoiceComponents(choices[..i], field, surface)
      invariant children == children0 + ButtonNames(i)
    {
      var labelId, buttonId := Name(ChoiceLabel(i)), Name(ChoiceButton(i));
      components := components + [Text(labelId, choices[i].caption, false)];
      components := components + [Button(buttonId, labelId, surface, field, choices[i].value)];
      children := children + [buttonId];
      assert choices[..i + 1][..i] == choices[..i];
    }
    assert choices[..|choices|] == choices;
  }

  // ---------- Trees ----------

  predicate DistinctIds(cs: seq<Component>) {
    forall i, j :: 0 <= i < j < |cs| ==> cs[i].id != cs[j].id
  }

  /** The component at i refers to the one at j. */
  predicate RefersTo(cs: seq<Component>, i: nat, j: nat)
    requires i < |cs| && j < |cs|
  {
    cs[j].id in cs[i].References()
  }

  predicate IsPathStep(cs: seq<Component>, path: seq<nat>, n: nat)
    requires 0 < n < |path| && forall k :: 0 <= k < |path| ==> path[k] < |cs|
  {
    RefersTo(cs, path[n - 1], path[n])
  }

  /** A path of references from the first component to the one at j. */
  ghost predicate IsPath(cs: seq<Component>, path: seq<nat>, j: nat) {
    && |path| > 0 && (forall k :: 0 <= k < |path| ==> path[k] < |cs|)
    && path[0] == 0 && path[|path| - 1] == j
    && forall n :: 0 < n < |path| ==> IsPathStep(cs, path, n)
  }

  ghost predicate IsReached(cs: seq<Component>, j: nat) {
    exists path :: IsPath(cs, path, j)
  }

  /** Ids are distinct, every reference resolves, and exactly one path of references leads to each component. */
  ghost predicate IsTree(cs: seq<Component>) {
    && |cs| > 0 && cs[0].id == "root" && DistinctIds(cs)
    && (forall i, ref :: 0 <= i < |cs| && ref in cs[i].References() ==> exists j :: 0 <= j < |cs| && cs[j].id == ref)
    && (forall i :: 0 <= i < |cs| ==> Distinct(cs[i].References()))
    && (forall j :: 0 <= j < |cs| ==> IsReached(cs, j))
    && (forall j, p, q :: IsPath(cs, p, j) && IsPath(cs, q, j) ==> p == q)
  }

  /** Everybody has at most one parent and the first component has none. */
  ghost predicate SingleParents(cs: seq<Component>) {
    && (forall i, j :: 0 <= i < |cs| && 0 <= j < |cs| && RefersTo(cs, i, j) ==> j != 0)
    && (forall i, k, j :: 0 <= i < |cs| && 0 <= k < |cs| && 0 <= j < |cs| && RefersTo(cs, i, j) && RefersTo(cs, k, j)
          ==> i == k)
  }

  lemma {:induction false} PathsAreUnique(cs: seq<Component>, p: seq<nat>, q: seq<nat>, j: nat)
    requires SingleParents(cs) && IsPath(cs, p, j) && IsPath(cs, q, j)
    ensures p == q
    decreases |p|
  {
    if |p| == 1 {
      assert |q| > 1 ==> IsPathStep(cs, q, |q| - 1);
    } else {
      assert IsPathStep(cs, p, |p| - 1);
      assert |q| > 1;
      assert IsPathStep(cs, q, |q| - 1);
      var i := p[|p| - 2];
      assert q[|q| - 2] == i;
      ShorterPath(cs, p, j);
      ShorterPath(cs, q, j);
      PathsAreUnique(cs, p[..|p| - 1], q[..|q| - 1], i);
      assert p == p[..|p| - 1] + [j] && q == q[..|q| - 1] + [j];
    }
  }

  lemma ShorterPath(cs: seq<Component>, p: seq<nat>, j: nat)
    requires IsPath(cs, p, j) && |p| > 1
    ensures IsPath(cs, p[..|p| - 1], p[|p| - 2])
  {
    var shorter := p[..|p| - 1];
    forall n | 0 < n < |shorter| ensures IsPathStep(cs, shorter, n) {
      assert IsPathStep(cs, p, n);
    }
  }

  // ---------- Names ----------

  lemma ChoiceNamesDiffer(m: nat, n: nat)
    ensures Name(ChoiceButton(m)) == Name(ChoiceButton(n)) ==> m == n
    ensures Name(ChoiceLabel(m)) == Name(ChoiceLabel(n)) ==> m == n
    ensures Name(ChoiceButton(m)) != Name(ChoiceLabel(n))
  {
    var (a, b) := (Decimal(m), Decimal(n));
    var (button, other, caption) := (Name(ChoiceButton(m)), Name(ChoiceButton(n)), Name(ChoiceLabel(n)));
    assert button[7..] == a && other[7..] == b;
    if button == other {
      DecimalInjective(m, n);
    }
    if Name(ChoiceLabel(m)) == caption {
      assert Name(ChoiceLabel(m))[7..7 + |a|] == a && caption[7..7 + |b|] == b;
      DecimalInjective(m, n);
    }
    assert caption[|caption| - 1] == 'l' && 'l' !in DIGITS;
    assert button[|button| - 1] == a[|a| - 1] && a[|a| - 1] in DIGITS;
  }

  /** The first two characters tell the kinds of slot apart. */
  function Kind(slot: Slot): nat {
    match slot
    case Root => 0
    case Content => 1
    case Title => 2
    case Message => 3
    case Help(_) => 4
    case ChoiceLabel(_) => 5
    case ChoiceButton(_) => 5
  }

  lemma KindShows(slot: Slot)
    ensures |Name(slot)| >= 2
    ensures Name(slot)[0] == ['r', 'c', 't', 'm', 'h', 'c'][Kind(slot)]
    ensures Name(slot)[1] == ['o', 'o', 'i', 'e', 'e', 'h'][Kind(slot)]
  {
  }

  lemma NamesDiffer(a: Slot, b: Slot)
    ensures Name(a) == Name(b) <==> a == b
  {
    KindShows(a);
    KindShows(b);
    if a.Help? && b.Help? {
      assert Name(a)[5..] == Decimal(a.n) && Name(b)[5..] == Decimal(b.n);
      if Name(a) == Name(b) {
        DecimalInjective(a.n, b.n);
      }
    } else if Kind(a) == 5 && Kind(b) == 5 {
      ChoiceNamesDiffer(a.n, b.n);
      ChoiceNamesDiffer(b.n, a.n);
    }
  }

  // ---------- The layout of a card ----------

  /** The slot at each position. */
  function SlotAt(spec: CardSpec, i: nat): Slot {
    var h := |spec.helpTexts|;
    if i == 0 then Root
    else if i == 1 then Content
    else if i == 2 then Title
    else if i == 3 then Message
    else if i < 4 + h then Help(i - 4)
    else if (i - 4 - h) % 2 == 0 then ChoiceLabel((i - 4 - h) / 2)
    else ChoiceButton((i - 4 - h) / 2)
  }

  function PositionOf(spec: CardSpec, slot: Slot): nat {
    match slot
    case Root => 0
    case Content => 1
    case Title => 2
    case Message => 3
    case Help(n) => 4 + n
    case ChoiceLabel(n) => 4 + |spec.helpTexts| + 2 * n
    case ChoiceButton(n) => 4 + |spec.helpTexts| + 2 * n + 1
  }

  predicate InCard(spec: CardSpec, slot: Slot) {
    match slot
    case Help(n) => n < |spec.helpTexts|
    case ChoiceLabel(n) => n < |spec.choices|
    case ChoiceButton(n) => n < |spec.choices|
    case _ => true
  }

  lemma Layout(spec: CardSpec, i: nat, slot: Slot)
    ensures i < Count(spec) ==> InCard(spec, SlotAt(spec, i)) && PositionOf(spec, SlotAt(spec, i)) == i
    ensures InCard(spec, slot) ==> PositionOf(spec, slot) < Count(spec) && SlotAt(spec, PositionOf(spec, slot)) == slot
  {
    match slot
    case ChoiceLabel(n) => assert 2 * n / 2 == n;
    case ChoiceButton(n) => assert (2 * n + 1) / 2 == n && (2 * n + 1) % 2 == 1;
    case _ =>
  }

  lemma {:induction false} HelpComponentAt(texts: seq<string>, n: nat)
    requires n < |texts|
    ensures HelpComponents(texts)[n] == Text(Name(Help(n)), texts[n], false)
    ensures HelpNames(|texts|)[n] == Name(Help(n))
  {
    if n < |texts| - 1 {
      HelpComponentAt(texts[..|texts| - 1], n);
    }
  }

  lemma {:induction false} ChoiceComponentAt(choices: seq<Choice>, field: string, surface: string, n: nat)
    requires n < |choices|
    ensures var r := ChoiceComponents(choices, field, surface);
            && r[2 * n] == Text(Name(ChoiceLabel(n)), choices[n].caption, false)
            && r[2 * n + 1]
               == Button(Name(ChoiceButton(n)), Name(ChoiceLabel(n)), surface, field, choices[n].value)
    ensures ButtonNames(|choices|)[n] == Name(ChoiceButton(n))
  {
    if n < |choices| - 1 {
      ChoiceComponentAt(choices[..|choices| - 1], field, surface, n);
    }
  }

  /** The component in each slot: fixed ones, help texts and choices in input order, each button with its caption. */
  function ComponentFor(spec: CardSpec, surface: string, slot: Slot): Component
    requires InCard(spec, slot)
  {
    match slot
    case Root => Card("root", "content")
    case Content => Column("content", ContentChildren(spec))
    case Title => Text("title", spec.title, true)
    case Message => Text("message", spec.message, false)
    case Help(n) => Text(Name(slot), spec.helpTexts[n], false)
    case ChoiceLabel(n) => Text(Name(slot), spec.choices[n].caption, false)
    case ChoiceButton(n) =>
      Button(Name(slot), Name(ChoiceLabel(n)), surface, spec.responseField, spec.choices[n].value)
  }

  lemma PartsOfCard(spec: CardSpec, surface: string, n: nat)
    ensures n < |spec.helpTexts| ==> CompiledCard(spec, surface)[4 + n] == HelpComponents(spec.helpTexts)[n]
    ensures n < 2 * |spec.choices| ==>
              CompiledCard(spec, surface)[4 + |spec.helpTexts| + n]
              == ChoiceComponents(spec.choices, spec.responseField, surface)[n]
  {
  }

  lemma ComponentAt(spec: CardSpec, surface: string, slot: Slot)
    requires InCard(spec, slot)
    ensures PositionOf(spec, slot) < Count(spec)
    ensures CompiledCard(spec, surface)[PositionOf(spec, slot)] == ComponentFor(spec, surface, slot)
    ensures ComponentFor(spec, surface, slot).id == Name(slot)
    ensures ComponentFor(spec, surface, slot).id ==
            match slot
            case Root => "root"
            case Content => "content"
            case Title => "title"
            case Message => "message"
            case Help(n) => "help-" + Decimal(n)
            case ChoiceLabel(n) => "choice-" + Decimal(n) + "-label"
            case ChoiceButton(n) => "choice-" + Decimal(n)
  {
    match slot
    case Help(n) =>
      HelpComponentAt(spec.helpTexts, n);
      PartsOfCard(spec, surface, n);
    case ChoiceLabel(n) =>
      ChoiceComponentAt(spec.choices, spec.responseField, surface, n);
      PartsOfCard(spec, surface, 2 * n);
    case ChoiceButton(n) =>
      ChoiceComponentAt(spec.choices, spec.responseField, surface, n);
      PartsOfCard(spec, surface, 2 * n + 1);
    case _ =>
  }

  // ---------- The references of a card ----------

  /** Where each slot but the root hangs. */
  function Parent(slot: Slot): Slot {
    match slot
    case Root => Root
    case Content => Root
    case ChoiceLabel(n) => ChoiceButton(n)
    case _ => Content
  }

  lemma ContentChildAt(spec: CardSpec, m: nat) returns (slot: Slot)
    requires m < |ContentChildren(spec)|
    ensures InCard(spec, slot) && slot != Root && Parent(slot) == Content && ContentChildren(spec)[m] == Name(slot)
    ensures m == (match slot
                  case Title => 0
                  case Message => 1
                  case Help(n) => 2 + n
                  case ChoiceButton(n) => 2 + |spec.helpTexts| + n
                  case _ => m)
  {
    var h := |spec.helpTexts|;
    if m < 2 {
      slot := if m == 0 then Title else Message;
    } else if m < 2 + h {
      HelpComponentAt(spec.helpTexts, m - 2);
      slot := Help(m - 2);
    } else {
      ChoiceComponentAt(spec.choices, "", "", m - 2 - h);
      slot := ChoiceButton(m - 2 - h);
    }
  }

  lemma ContentNames(spec: CardSpec, slot: Slot)
    requires InCard(spec, slot)
    ensures Name(slot) in ContentChildren(spec) <==> slot != Root && Parent(slot) == Content
  {
    var children, h := ContentChildren(spec), |spec.helpTexts|;
    if Name(slot) in children {
      var m :| 0 <= m < |children| && children[m] == Name(slot);
      var other := ContentChildAt(spec, m);
      NamesDiffer(slot, other);
    }
    match slot
    case Title => assert children[0] == Name(slot);
    case Message => assert children[1] == Name(slot);
    case Help(n) =>
      HelpComponentAt(spec.helpTexts, n);
      assert children[2 + n] == Name(slot);
    case ChoiceButton(n) =>
      ChoiceComponentAt(spec.choices, "", "", n);
      assert children[2 + h + n] == Name(slot);
    case _ =>
  }

  /** One slot names another exactly when it is its parent. */
  lemma NamesItsChildren(spec: CardSpec, surface: string, slot: Slot, other: Slot)
    requires InCard(spec, slot) && InCard(spec, other)
    ensures Name(other) in ComponentFor(spec, surface, slot).References() <==> other != Root && slot == Parent(other)
  {
    match slot
    case Root => NamesDiffer(other, Content);
    case Content => ContentNames(spec, other);
    case ChoiceButton(n) => NamesDiffer(other, ChoiceLabel(n));
    case _ =>
  }

  lemma RefersToIffParent(spec: CardSpec, surface: string, i: nat, j: nat)
    requires i < Count(spec) && j < Count(spec)
    ensures RefersTo(CompiledCard(spec, surface), i, j) <==>
            j != 0 && SlotAt(spec, i) == Parent(SlotAt(spec, j))
  {
    Layout(spec, i, Root);
    Layout(spec, j, Root);
    ComponentAt(spec, surface, SlotAt(spec, i));
    ComponentAt(spec, surface, SlotAt(spec, j));
    NamesItsChildren(spec, surface, SlotAt(spec, i), SlotAt(spec, j));
  }

  lemma ReachedThrough(cs: seq<Component>, i: nat, j: nat)
    requires i < |cs| && j < |cs| && IsReached(cs, i) && RefersTo(cs, i, j)
    ensures IsReached(cs, j)
  {
    var path :| IsPath(cs, path, i);
    var longer := path + [j];
    forall n | 0 < n < |longer| ensures IsPathStep(cs, longer, n) {
      if n < |path| {
        assert IsPathStep(cs, path, n);
      }
    }
    assert IsPath(cs, longer, j);
  }

  lemma {:induction false} EverySlotIsReached(spec: CardSpec, surface: string, slot: Slot)
    requires InCard(spec, slot)
    ensures PositionOf(spec, slot) < Count(spec)
    ensures IsReached(CompiledCard(spec, surface), PositionOf(spec, slot))
    decreases if slot.Root? then 0 else if slot.Content? then 1 else if slot.ChoiceLabel? then 3 else 2
  {
    Layout(spec, 0, slot);
    if slot.Root? {
      assert IsPath(CompiledCard(spec, surface), [0], 0);
    } else {
      EverySlotIsReached(spec, surface, Parent(slot));
      Layout(spec, 0, Parent(slot));
      RefersToIffParent(spec, surface, PositionOf(spec, Parent(slot)), PositionOf(spec, slot));
      ReachedThrough(CompiledCard(spec, surface), PositionOf(spec, Parent(slot)), PositionOf(spec, slot));
    }
  }

  lemma ReferenceResolves(spec: CardSpec, surface: string, i: nat, ref: string) returns (j: nat)
    requires i < Count(spec) && ref in CompiledCard(spec, surface)[i].References()
    ensures j < Count(spec) && CompiledCard(spec, surface)[j].id == ref
  {
    Layout(spec, i, Root);
    ComponentAt(spec, surface, SlotAt(spec, i));
    var child := Content;
    if SlotAt(spec, i).Content? {
      var m :| 0 <= m < |ContentChildren(spec)| && ContentChildren(spec)[m] == ref;
      child := ContentChildAt(spec, m);
    } else if SlotAt(spec, i).ChoiceButton? {
      child := ChoiceLabel(SlotAt(spec, i).n);
    }
    ComponentAt(spec, surface, child);
    j := PositionOf(spec, child);
  }

  lemma ContentChildrenDistinct(spec: CardSpec)
    ensures Distinct(ContentChildren(spec))
  {
    var children := ContentChildren(spec);
    forall m, n | 0 <= m < n < |children| ensures children[m] != children[n] {
      var a := ContentChildAt(spec, m);
      var b := ContentChildAt(spec, n);
      NamesDiffer(a, b);
    }
  }

  lemma ComponentIdsDiffer(spec: CardSpec, surface: string)
    ensures DistinctIds(CompiledCard(spec, surface))
  {
    var cs := CompiledCard(spec, surface);
    forall i, j | 0 <= i < j < |cs| ensures cs[i].id != cs[j].id {
      Layout(spec, i, Root);
      Layout(spec, j, Root);
      ComponentAt(spec, surface, SlotAt(spec, i));
      ComponentAt(spec, surface, SlotAt(spec, j));
      NamesDiffer(SlotAt(spec, i), SlotAt(spec, j));
    }
  }

  lemma CardHasSingleParents(spec: CardSpec, surface: string)
    ensures SingleParents(CompiledCard(spec, surface))
  {
    var cs := CompiledCard(spec, surface);
    forall i: nat, j: nat | i < |cs| && j < |cs|
      ensures RefersTo(cs, i, j) <==> j != 0 && i == PositionOf(spec, Parent(SlotAt(spec, j)))
    {
      RefersToIffParent(spec, surface, i, j);
      Layout(spec, i, Root);
      Layout(spec, j, Root);
      Layout(spec, 0, Parent(SlotAt(spec, j)));
    }
  }

  /** For any number of help texts and choices the compiled components form a tree rooted at "root". */
  lemma CompiledCardIsTree(spec: CardSpec, surface: string)
    ensures IsTree(CompiledCard(spec, surface))
  {
    var cs := CompiledCard(spec, surface);
    ComponentIdsDiffer(spec, surface);
    CardHasSingleParents(spec, surface);
    forall i, ref | 0 <= i < |cs| && ref in cs[i].References()
      ensures exists j :: 0 <= j < |cs| && cs[j].id == ref
    {
      var j := ReferenceResolves(spec, surface, i, ref);
    }
    forall i | 0 <= i < |cs| ensures Distinct(cs[i].References()) {
      Layout(spec, i, Root);
      ComponentAt(spec, surface, SlotAt(spec, i));
      ContentChildrenDistinct(spec);
    }
    forall j | 0 <= j < |cs| ensures IsReached(cs, j) {
      Layout(spec, j, Root);
      EverySlotIsReached(spec, surface, SlotAt(spec, j));
    }
    forall j, p, q | IsPath(cs, p, j) && IsPath(cs, q, j) ensures p == q {
      PathsAreUnique(cs, p, q, j);
    }
  }
}
