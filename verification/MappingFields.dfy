/** Each field of a mapped prospect comes from its own template, treated in its own way (cmd/src/prospect.rs). */
module MappingFields {
  import opened Text
  import opened Json
  import opened Multiline
  import opened Template
  import opened Mapping

  datatype FieldName =
    | SourceKey | Name | Title | Company | Industry | Email | EmailStatus | Phone | Website | Linkedin | Location
    | Notes

  function TemplateOf(m: Templates, f: FieldName): string {
    match f
    case SourceKey => m.sourceKey
    case Name => m.name
    case Title => m.title
    case Company => m.company
    case Industry => m.industry
    case Email => m.email
    case EmailStatus => m.emailStatus
    case Phone => m.phone
    case Website => m.website
    case Linkedin => m.linkedin
    case Location => m.location
    case Notes => m.notes
  }

  function ValueOf(p: Prospect, f: FieldName): string {
    match f
    case SourceKey => p.sourceKey
    case Name => p.name
    case Title => p.title
    case Company => p.company
    case Industry => p.industry
    case Email => p.email
    case EmailStatus => p.emailStatus
    case Phone => p.phone
    case Website => p.website
    case Linkedin => p.linkedin
    case Location => p.location
    case Notes => p.notes
  }

  /** Names people read are title-cased; addresses and sentences are only cleansed; a status is folded to one case; the
      key keeps its punctuation. */
  function Treated(lib: Library, f: FieldName, text: string): string {
    if f in {Name, Title, Company, Industry, Location} then lib.titleCase(text)
    else if f == SourceKey then CleanseKey(lib.nfc, text)
    else if f == EmailStatus then lib.lowercase(Cleanse(lib.nfc, text))
    else Cleanse(lib.nfc, text)
  }

  /** What a template says of a row. */
  function Said(lib: Library, tmpl: string, ctx: Ctx): string {
    if tmpl == "" then "" else Trim(Rendered(lib.show, tmpl, ctx))
  }

  /** A row is mapped if and only if its key says something; then each field is what its own template says, treated in
      that field's way, and a value nothing is said of is left out. */
  lemma EachFieldIsItsOwn(lib: Library, m: Templates, ctx: Ctx, f: FieldName)
    ensures MapRow(lib, m, ctx).Some? <==> Treated(lib, SourceKey, Said(lib, m.sourceKey, ctx)) != ""
    ensures var row := MapRow(lib, m, ctx);
            row.Some? ==>
              && ValueOf(row.value, f) == Treated(lib, f, Said(lib, TemplateOf(m, f), ctx))
              && var worth := Said(lib, m.estimatedValue, ctx);
                 row.value.estimatedValue == if worth == "" then None else lib.parseMoney(worth)
  {
    hide Cleanse, CleanseKey, Rendered, Trim;
  }

  /** Mappings that differ in one field's template alone map a row to prospects that differ in that field alone. */
  lemma OneTemplateOneField(lib: Library, a: Templates, b: Templates, ctx: Ctx, f: FieldName)
    requires MapRow(lib, a, ctx).Some? && MapRow(lib, b, ctx).Some?
    requires forall g: FieldName :: g != f ==> TemplateOf(a, g) == TemplateOf(b, g)
    requires a.estimatedValue == b.estimatedValue
    ensures var x, y := MapRow(lib, a, ctx).value, MapRow(lib, b, ctx).value;
            && (forall g: FieldName :: g != f ==> ValueOf(x, g) == ValueOf(y, g))
            && x.estimatedValue == y.estimatedValue
  {
    hide MapRow, TemplateOf, ValueOf, Treated, Said;
    forall g: FieldName
      ensures ValueOf(MapRow(lib, a, ctx).value, g) == Treated(lib, g, Said(lib, TemplateOf(a, g), ctx))
      ensures ValueOf(MapRow(lib, b, ctx).value, g) == Treated(lib, g, Said(lib, TemplateOf(b, g), ctx))
    {
      EachFieldIsItsOwn(lib, a, ctx, g);
      EachFieldIsItsOwn(lib, b, ctx, g);
    }
    EachFieldIsItsOwn(lib, a, ctx, f);
    EachFieldIsItsOwn(lib, b, ctx, f);
  }

  lemma OnlyTheWorthDiffers(lib: Library, m: Templates, worth: string, ctx: Ctx, f: FieldName)
    ensures var a, b := MapRow(lib, m, ctx), MapRow(lib, m.(estimatedValue := worth), ctx);
            && (a.Some? <==> b.Some?)
            && (a.Some? ==> ValueOf(a.value, f) == ValueOf(b.value, f))
  {
    hide Cleanse, CleanseKey, Rendered, Trim;
  }

  /** A field whose template is one placeholder takes that value of the row, trimmed and treated. */
  lemma PlaceholderFillsItsField(lib: Library, m: Templates, ctx: Ctx, f: FieldName, name: string, value: string)
    requires IsName(name) && TemplateOf(m, f) == Placeholder("", name, "")
    ensures var row := MapRow(lib, m, ctx[name := Str(value)]);
            row.Some? ==> ValueOf(row.value, f) == Treated(lib, f, Trim(value))
  {
    hide MapRow, TemplateOf, ValueOf, Treated, Rendered, Trim, IsName;
    EachFieldIsItsOwn(lib, m, ctx[name := Str(value)], f);
    ValuesAreVerbatim(lib.show, name, ctx, value);
  }

  /** And a worth whose template is one placeholder is that value read as money, if it is there at all. */
  lemma PlaceholderGivesTheWorth(lib: Library, m: Templates, ctx: Ctx, name: string, value: string)
    requires IsName(name) && m.estimatedValue == Placeholder("", name, "")
    ensures var row := MapRow(lib, m, ctx[name := Str(value)]);
            row.Some? ==> row.value.estimatedValue == if IsBlank(value) then None else lib.parseMoney(Trim(value))
  {
    hide MapRow, Treated, Rendered, Trim, IsName, IsBlank;
    EachFieldIsItsOwn(lib, m, ctx[name := Str(value)], SourceKey);
    ValuesAreVerbatim(lib.show, name, ctx, value);
    TrimBlank(value);
  }

  /** A key whose template is one placeholder decides by that value alone whether the row is mapped. */
  lemma PlaceholderKeyDecides(lib: Library, m: Templates, ctx: Ctx, name: string, value: string)
    requires IsName(name) && m.sourceKey == Placeholder("", name, "")
    ensures MapRow(lib, m, ctx[name := Str(value)]).Some? <==> CleanseKey(lib.nfc, Trim(value)) != ""
  {
    hide MapRow, Rendered, Trim, IsName, CleanseKey;
    EachFieldIsItsOwn(lib, m, ctx[name := Str(value)], SourceKey);
    ValuesAreVerbatim(lib.show, name, ctx, value);
  }

  // ----- What a row is asked for -----

  /** The names the contract lists are those the templates refer to, but for the seed's and the eleven the pipeline sets
      itself; those of the key are required. */
  lemma ContractAsksForTheRest(m: Templates, seedKeys: set<string>, field: string)
    ensures var c := SchemaContract(m, seedKeys);
            var asked := field in ReferencedFields(m) && field !in seedKeys && field !in INJECTED_VARS;
            && (field in c.required <==> asked && field in FieldsIn(m.sourceKey))
            && (field in c.optional <==> asked && field !in FieldsIn(m.sourceKey))
  {
    hide FieldsIn, ReferencedFields, INJECTED_VARS;
    KeyFieldsAreReferenced(m);
  }

  lemma KeyFieldsAreReferenced(m: Templates)
    ensures FieldsIn(m.sourceKey) <= ReferencedFields(m)
  {
    hide FieldsIn;
    assert m.sourceKey == AllTemplates(m)[0];
    TemplateFieldsAreReferenced(m, m.sourceKey);
  }
}
