/** Projecting a scraped row into a prospect, and the contract a rewritten prompt is held to (cmd/src/prospect.rs). */
module Mapping {
  import opened Text
  import opened Json
  import opened Multiline
  import opened Template

  /** The library functions a mapping calls; every result holds for any of them. */
  datatype Library = Library(
    nfc: string -> string,
    show: Value -> string,
    titleCase: string -> string,
    lowercase: string -> string,
    parseMoney: string -> Option<int>)

  datatype Templates = Templates(
    sourceKey: string, name: string, title: string, company: string, industry: string, email: string,
    emailStatus: string, phone: string, website: string, linkedin: string, location: string, notes: string,
    estimatedValue: string)

  datatype Prospect = Prospect(
    sourceKey: string, name: string, title: string, company: string, industry: string, email: string,
    emailStatus: string, phone: string, website: string, linkedin: string, location: string, notes: string,
    estimatedValue: Option<int>)

  /** A template's text for a row; an empty template is never rendered. */
  function Rend(lib: Library, tmpl: string, ctx: Ctx): string {
    if tmpl == "" then "" else Trim(Rendered(lib.show, tmpl, ctx))
  }

  function SourceKeyOf(lib: Library, m: Templates, ctx: Ctx): string {
    CleanseKey(lib.nfc, Rend(lib, m.sourceKey, ctx))
  }

  function Titled(lib: Library, tmpl: string, ctx: Ctx): string {
    lib.titleCase(Rend(lib, tmpl, ctx))
  }

  function Cleansed(lib: Library, tmpl: string, ctx: Ctx): string {
    Cleanse(lib.nfc, Rend(lib, tmpl, ctx))
  }

  /** The projected row, or None when its key renders to nothing. */
  function MapRow(lib: Library, m: Templates, ctx: Ctx): Option<Prospect> {
    if SourceKeyOf(lib, m, ctx) == "" then None
    else
      var money := Rend(lib, m.estimatedValue, ctx);
      Some(Prospect(
             SourceKeyOf(lib, m, ctx),
             Titled(lib, m.name, ctx), Titled(lib, m.title, ctx), Titled(lib, m.company, ctx),
             Titled(lib, m.industry, ctx), Cleansed(lib, m.email, ctx),
             lib.lowercase(Cleansed(lib, m.emailStatus, ctx)), Cleansed(lib, m.phone, ctx),
             Cleansed(lib, m.website, ctx), Cleansed(lib, m.linkedin, ctx), Titled(lib, m.location, ctx),
             Cleansed(lib, m.notes, ctx),
             if money == "" then None else lib.parseMoney(money)))
  }

  // ----- Fields -----

  function AllTemplates(m: Templates): seq<string> {
    [m.sourceKey, m.name, m.title, m.company, m.industry, m.email, m.emailStatus, m.phone, m.website, m.linkedin,
     m.location, m.notes]
  }

  function FieldsOfAll(tmpls: seq<string>): set<string> {
    if tmpls == [] then {} else FieldsIn(tmpls[0]) + FieldsOfAll(tmpls[1..])
  }

  /** Every field name some template of the mapping refers to. */
  function ReferencedFields(m: Templates): set<string> {
    FieldsOfAll(AllTemplates(m)) + FieldsIn(m.estimatedValue)
  }

  function KeyFields(m: Templates): set<string> {
    FieldsIn(m.sourceKey)
  }

  const INJECTED_VARS: set<string> :=
    {"known_companies", "known_companies_csv", "known_people", "known_people_csv", "explored_seeds",
     "explored_seeds_csv", "source", "plan_type", "target_remaining", "current_scrape_prompt", "prompt_history_csv"}

  predicate IsSupplied(field: string, seedKeys: set<string>) {
    field in seedKeys || field in INJECTED_VARS
  }

  function RowFields(m: Templates, seedKeys: set<string>): set<string> {
    set f | f in ReferencedFields(m) && !IsSupplied(f, seedKeys)
  }

  /** The names the contract lists: those a row must carry, and those it may leave empty. */
  datatype Contract = Contract(required: set<string>, optional: set<string>)

  function SchemaContract(m: Templates, seedKeys: set<string>): Contract {
    var required := set f | f in KeyFields(m) && !IsSupplied(f, seedKeys);
    Contract(required, set f | f in RowFields(m, seedKeys) && f !in required)
  }

  // ----- What they mean -----

  lemma {:induction false} FieldsOfAllHolds(tmpls: seq<string>, i: nat)
    requires i < |tmpls|
    ensures FieldsIn(tmpls[i]) <= FieldsOfAll(tmpls)
  {
    if i > 0 {
      FieldsOfAllHolds(tmpls[1..], i - 1);
    }
  }

  lemma {:induction false} FieldsOfAllComesFrom(tmpls: seq<string>, f: string)
    requires f in FieldsOfAll(tmpls)
    ensures exists t <- tmpls :: f in FieldsIn(t)
  {
    if f !in FieldsIn(tmpls[0]) {
      FieldsOfAllComesFrom(tmpls[1..], f);
      var t :| t in tmpls[1..] && f in FieldsIn(t);
      assert t in tmpls;
    }
  }

  predicate IsTemplateOf(m: Templates, t: string) {
    t in AllTemplates(m) || t == m.estimatedValue
  }

  lemma TemplateFieldsAreReferenced(m: Templates, t: string)
    requires IsTemplateOf(m, t)
    ensures FieldsIn(t) <= ReferencedFields(m)
  {
    hide FieldsIn;
    if t in AllTemplates(m) {
      var i :| 0 <= i < |AllTemplates(m)| && AllTemplates(m)[i] == t;
      FieldsOfAllHolds(AllTemplates(m), i);
    }
  }

  lemma RendDependsOnReferenced(lib: Library, m: Templates, t: string, a: Ctx, b: Ctx)
    requires IsTemplateOf(m, t) && Agree(a, b, ReferencedFields(m))
    ensures Rend(lib, t, a) == Rend(lib, t, b)
  {
    hide FieldsIn, Rendered, AllTemplates, ReferencedFields;
    TemplateFieldsAreReferenced(m, t);
    RenderingDependsOnFields(lib.show, t, a, b);
  }

  lemma EachIsATemplate(m: Templates)
    ensures IsTemplateOf(m, m.sourceKey) && IsTemplateOf(m, m.name) && IsTemplateOf(m, m.title)
    ensures IsTemplateOf(m, m.company) && IsTemplateOf(m, m.industry) && IsTemplateOf(m, m.email)
    ensures IsTemplateOf(m, m.emailStatus) && IsTemplateOf(m, m.phone) && IsTemplateOf(m, m.website)
    ensures IsTemplateOf(m, m.linkedin) && IsTemplateOf(m, m.location) && IsTemplateOf(m, m.notes)
    ensures IsTemplateOf(m, m.estimatedValue)
  {
  }

  /** A projected row depends on its context only through the fields the mapping refers to. */
  lemma MappingDependsOnReferencedFields(lib: Library, m: Templates, a: Ctx, b: Ctx)
    requires Agree(a, b, ReferencedFields(m))
    ensures MapRow(lib, m, a) == MapRow(lib, m, b)
  {
    forall t | IsTemplateOf(m, t)
      ensures Rend(lib, t, a) == Rend(lib, t, b)
    {
      RendDependsOnReferenced(lib, m, t, a, b);
    }
    hide Rend, ReferencedFields, AllTemplates, IsTemplateOf, CleanseKey, Cleanse;
    EachIsATemplate(m);
  }

  /** Nothing is referred to in vain: each referenced field can change the text of some template. */
  lemma ReferencedFieldsMatter(lib: Library, m: Templates, ctx: Ctx, f: string)
    requires f in ReferencedFields(m)
    ensures exists t :: IsTemplateOf(m, t)
              && Rendered(lib.show, t, ctx[f := Str("")]) != Rendered(lib.show, t, ctx[f := Str("x")])
  {
    if f in FieldsOfAll(AllTemplates(m)) {
      FieldsOfAllComesFrom(AllTemplates(m), f);
      var t :| t in AllTemplates(m) && f in FieldsIn(t);
      EveryFieldMatters(lib.show, t, ctx, f);
      assert IsTemplateOf(m, t);
    } else {
      EveryFieldMatters(lib.show, m.estimatedValue, ctx, f);
      assert IsTemplateOf(m, m.estimatedValue);
    }
  }

  /** The contract, with what the pipeline supplies, divides the referenced fields: each is in exactly one part,
      and what is required is exactly what the key needs from the row. */
  lemma ContractDividesTheFields(m: Templates, seedKeys: set<string>)
    ensures var c := SchemaContract(m, seedKeys);
            var supplied := set f | f in ReferencedFields(m) && IsSupplied(f, seedKeys);
            && c.required + c.optional + supplied == ReferencedFields(m)
            && c.required !! c.optional && c.required !! supplied && c.optional !! supplied
            && (forall f :: f in c.required <==> f in KeyFields(m) && f !in supplied)
  {
    hide FieldsIn;
    assert m.sourceKey == AllTemplates(m)[0];
    TemplateFieldsAreReferenced(m, m.sourceKey);
  }

  /** So a row that carries the contract's names, over the same supplied values, maps the same whatever else it
      holds. */
  lemma ContractIsEnough(lib: Library, m: Templates, seedKeys: set<string>, a: Ctx, b: Ctx)
    requires var c := SchemaContract(m, seedKeys);
             Agree(a, b, c.required) && Agree(a, b, c.optional) && Agree(a, b, seedKeys + INJECTED_VARS)
    ensures MapRow(lib, m, a) == MapRow(lib, m, b)
  {
    hide MapRow, ReferencedFields, KeyFields;
    ContractDividesTheFields(m, seedKeys);
    MappingDependsOnReferencedFields(lib, m, a, b);
  }
}
