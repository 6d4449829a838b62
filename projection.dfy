/**
 * The record-building half of `update_document` (src/documents/index.py):
 * a document and the collections related to it become the flat field
 * record that is handed to the index engine. Relations that are absent and
 * empty joined id lists are left out of the record instead of being
 * written as null.
 */
module Projection {
  import opened Wrappers
  import opened Text

  /** A field value as the record carries it; timestamps are the float of `.timestamp()`. */
  datatype Value = Str(s: string) | Int(i: int) | Bool(b: bool) | Time(seconds: real)

  /** The record passed to the engine: field name to value, never a null value. */
  type Record = map<Field, Value>

  /** A related row the record summarises by name and id (correspondent, type, path, owner). */
  datatype Related = Related(id: int, name: string)

  datatype DocumentTag = DocumentTag(id: int, name: string)

  /** A custom-field instance: the text `str(instance)` and the id of its field definition. */
  datatype CustomFieldInstance = CustomFieldInstance(fieldId: int, text: string)

  /** The document row; for the owner, `name` is the username. `original_filename` is a nullable column. */
  datatype Document = Document(
    pk: int,
    title: string,
    content: string,
    correspondent: Option<Related>,
    documentType: Option<Related>,
    storagePath: Option<Related>,
    owner: Option<Related>,
    created: real,
    added: real,
    modified: real,
    archiveSerialNumber: Option<int>,
    checksum: string,
    originalFilename: Option<string>)

  /**
   * What the ORM and the permission lookup return for the document: its tags,
   * the text of its notes, its custom-field instances and the ids of the users
   * holding the view permission, each in query order.
   */
  datatype Collections = Collections(
    tags: seq<DocumentTag>,
    notes: seq<string>,
    customFields: seq<CustomFieldInstance>,
    viewers: seq<int>)

  function TagNames(tags: seq<DocumentTag>): (r: seq<string>)
    ensures |r| == |tags| && forall k :: 0 <= k < |tags| ==> r[k] == tags[k].name
  {
    seq(|tags|, k requires 0 <= k < |tags| => tags[k].name)
  }

  function TagIds(tags: seq<DocumentTag>): (r: seq<int>)
    ensures |r| == |tags| && forall k :: 0 <= k < |tags| ==> r[k] == tags[k].id
  {
    seq(|tags|, k requires 0 <= k < |tags| => tags[k].id)
  }

  function CustomFieldTexts(cfs: seq<CustomFieldInstance>): (r: seq<string>)
    ensures |r| == |cfs| && forall k :: 0 <= k < |cfs| ==> r[k] == cfs[k].text
  {
    seq(|cfs|, k requires 0 <= k < |cfs| => cfs[k].text)
  }

  function CustomFieldIds(cfs: seq<CustomFieldInstance>): (r: seq<int>)
    ensures |r| == |cfs| && forall k :: 0 <= k < |cfs| ==> r[k] == cfs[k].fieldId
  {
    seq(|cfs|, k requires 0 <= k < |cfs| => cfs[k].fieldId)
  }

  /** True when the ASN is logged as out of range and not indexed. */
  predicate AsnOutOfRange(asn: Option<int>, asnMin: int, asnMax: int) {
    asn.Some? && (asn.value < asnMin || asn.value > asnMax)
  }

  /** The `asn` the record gets: the document's own, or 0 when it is out of range. */
  function IndexedAsn(asn: Option<int>, asnMin: int, asnMax: int): (r: Option<int>)
    ensures r.None? <==> asn.None?
    ensures asn.Some? && asnMin <= asn.value <= asnMax ==> r == asn
    ensures AsnOutOfRange(asn, asnMin, asnMax) ==> r == Some(0)
  {
    if AsnOutOfRange(asn, asnMin, asnMax) then Some(0) else asn
  }

  function NameOf(r: Option<Related>): Option<Value> {
    if r.Some? then Some(Str(r.value.name)) else None
  }

  function IdOf(r: Option<Related>): Option<Value> {
    if r.Some? then Some(Int(r.value.id)) else None
  }

  function IndexedAsnValue(asn: Option<int>): Option<Value> {
    if asn.Some? then Some(Int(asn.value)) else None
  }

  /** `x if x else None` for a joined string. */
  function NonEmpty(s: string): Option<Value> {
    if s != "" then Some(Str(s)) else None
  }

  /** The four optional relations a record summarises by name and id. */
  datatype Relation = Correspondent | DocumentType | StoragePath | Owner

  /** What a relation contributes: its name, its id and a flag saying whether it is set. */
  datatype Part = NamePart | IdPart | HasPart

  /** Fields taken straight from a non-null column of the document row. */
  datatype ScalarField = DocId | Title | Content | Created | Added | Modified | Checksum

  /** Fields built from the collections related to the document. */
  datatype JoinedField =
    | Tag | TagId | HasTag | Notes | NumNotes | CustomFields | CustomFieldCount
    | HasCustomFields | CustomFieldsId | ViewerId | IsShared

  /** The fields of the index schema (`get_schema`), which are also the keys `tdoc` is built with. */
  datatype Field =
    | Summary(relation: Relation, part: Part)
    | Scalar(scalar: ScalarField)
    | Joined(joined: JoinedField)
    | Asn
    | OriginalFilename

  const AllFields: set<Field> := {
    Summary(Correspondent, NamePart), Summary(Correspondent, IdPart), Summary(Correspondent, HasPart),
    Summary(DocumentType, NamePart), Summary(DocumentType, IdPart), Summary(DocumentType, HasPart),
    Summary(StoragePath, NamePart), Summary(StoragePath, IdPart), Summary(StoragePath, HasPart),
    Summary(Owner, NamePart), Summary(Owner, IdPart), Summary(Owner, HasPart),
    Scalar(DocId), Scalar(Title), Scalar(Content), Scalar(Created), Scalar(Added), Scalar(Modified),
    Scalar(Checksum), OriginalFilename,
    Joined(Tag), Joined(TagId), Joined(HasTag), Joined(Notes), Joined(NumNotes), Joined(CustomFields),
    Joined(CustomFieldCount), Joined(HasCustomFields), Joined(CustomFieldsId), Joined(ViewerId),
    Joined(IsShared),
    Asn
  }

  /** The key under which the field is stored; the key names no other field. */
  function FieldName(f: Field): (name: string)
    ensures FieldNamed(name) == Some(f)
  {
    match f
    case Summary(r, p) => SummaryName(r, p)
    case Scalar(s) => ScalarName(s)
    case Joined(j) => JoinedName(j)
    case Asn => "asn"
    case OriginalFilename => "original_filename"
  }

  /** The keys of the relation summaries: `correspondent`, `correspondent_id`, `has_correspondent`, ... */
  function SummaryName(r: Relation, p: Part): (name: string)
    ensures FieldNamed(name) == Some(Summary(r, p))
  {
    match (r, p)
    case (Correspondent, NamePart) => "correspondent"
    case (Correspondent, IdPart) => "correspondent_id"
    case (Correspondent, HasPart) => "has_correspondent"
    case (DocumentType, NamePart) => "type"
    case (DocumentType, IdPart) => "type_id"
    case (DocumentType, HasPart) => "has_type"
    case (StoragePath, NamePart) => "path"
    case (StoragePath, IdPart) => "path_id"
    case (StoragePath, HasPart) => "has_path"
    case (Owner, NamePart) => "owner"
    case (Owner, IdPart) => "owner_id"
    case (Owner, HasPart) => "has_owner"
  }

  function ScalarName(s: ScalarField): (name: string)
    ensures FieldNamed(name) == Some(Scalar(s))
  {
    match s
    case DocId => "doc_id"
    case Title => "title"
    case Content => "content"
    case Created => "created"
    case Added => "added"
    case Modified => "modified"
    case Checksum => "checksum"
  }

  function JoinedName(j: JoinedField): (name: string)
    ensures FieldNamed(name) == Some(Joined(j))
  {
    match j
    case Tag => "tag"
    case TagId => "tag_id"
    case HasTag => "has_tag"
    case Notes => "notes"
    case NumNotes => "num_notes"
    case CustomFields => "custom_fields"
    case CustomFieldCount => "custom_field_count"
    case HasCustomFields => "has_custom_fields"
    case CustomFieldsId => "custom_fields_id"
    case ViewerId => "viewer_id"
    case IsShared => "is_shared"
  }

  /** The field stored under a key, if any: the inverse of `FieldName`. */
  function FieldNamed(key: string): Option<Field>
  {
    match key
    case "correspondent" => Some(Summary(Correspondent, NamePart))
    case "correspondent_id" => Some(Summary(Correspondent, IdPart))
    case "has_correspondent" => Some(Summary(Correspondent, HasPart))
    case "type" => Some(Summary(DocumentType, NamePart))
    case "type_id" => Some(Summary(DocumentType, IdPart))
    case "has_type" => Some(Summary(DocumentType, HasPart))
    case "path" => Some(Summary(StoragePath, NamePart))
    case "path_id" => Some(Summary(StoragePath, IdPart))
    case "has_path" => Some(Summary(StoragePath, HasPart))
    case "owner" => Some(Summary(Owner, NamePart))
    case "owner_id" => Some(Summary(Owner, IdPart))
    case "has_owner" => Some(Summary(Owner, HasPart))
    case "doc_id" => Some(Scalar(DocId))
    case "title" => Some(Scalar(Title))
    case "content" => Some(Scalar(Content))
    case "created" => Some(Scalar(Created))
    case "added" => Some(Scalar(Added))
    case "modified" => Some(Scalar(Modified))
    case "checksum" => Some(Scalar(Checksum))
    case "original_filename" => Some(OriginalFilename)
    case "tag" => Some(Joined(Tag))
    case "tag_id" => Some(Joined(TagId))
    case "has_tag" => Some(Joined(HasTag))
    case "notes" => Some(Joined(Notes))
    case "num_notes" => Some(Joined(NumNotes))
    case "custom_fields" => Some(Joined(CustomFields))
    case "custom_field_count" => Some(Joined(CustomFieldCount))
    case "has_custom_fields" => Some(Joined(HasCustomFields))
    case "custom_fields_id" => Some(Joined(CustomFieldsId))
    case "viewer_id" => Some(Joined(ViewerId))
    case "is_shared" => Some(Joined(IsShared))
    case "asn" => Some(Asn)
    case _ => None
  }

  lemma AllFieldsListed()
    ensures forall f :: f in AllFields
  {
    forall f ensures f in AllFields {
      FieldListed(f);
    }
  }

  /** `AllFields` lists every field of the schema. */
  lemma FieldListed(f: Field)
    ensures f in AllFields
  {
    match f
    case Summary(Correspondent, NamePart) =>
    case Summary(Correspondent, IdPart) =>
    case Summary(Correspondent, HasPart) =>
    case Summary(DocumentType, NamePart) =>
    case Summary(DocumentType, IdPart) =>
    case Summary(DocumentType, HasPart) =>
    case Summary(StoragePath, NamePart) =>
    case Summary(StoragePath, IdPart) =>
    case Summary(StoragePath, HasPart) =>
    case Summary(Owner, NamePart) =>
    case Summary(Owner, IdPart) =>
    case Summary(Owner, HasPart) =>
    case Scalar(s) =>
      match s {
      case DocId =>
      case Title =>
      case Content =>
      case Created =>
      case Added =>
      case Modified =>
      case Checksum =>
      }
    case Joined(j) =>
      match j {
      case Tag =>
      case TagId =>
      case HasTag =>
      case Notes =>
      case NumNotes =>
      case CustomFields =>
      case CustomFieldCount =>
      case HasCustomFields =>
      case CustomFieldsId =>
      case ViewerId =>
      case IsShared =>
      }
    case Asn =>
    case OriginalFilename =>
  }


  /** Distinct fields have distinct keys. */
  lemma FieldNameInjective()
    ensures forall f, g :: FieldName(f) == FieldName(g) ==> f == g
  {
    forall f, g ensures FieldName(f) == FieldName(g) ==> f == g {
      assert FieldNamed(FieldName(f)) == Some(f);
      assert FieldNamed(FieldName(g)) == Some(g);
    }
  }

  /** The relation a document has under `r`. */
  function RelationOf(doc: Document, r: Relation): Option<Related> {
    match r
    case Correspondent => doc.correspondent
    case DocumentType => doc.documentType
    case StoragePath => doc.storagePath
    case Owner => doc.owner
  }

  /** The value of one part of a relation's summary; `None` for a missing name or id. */
  function SummaryValue(rel: Option<Related>, p: Part): Option<Value> {
    match p
    case NamePart => NameOf(rel)
    case IdPart => IdOf(rel)
    case HasPart => Some(Bool(rel.Some?))
  }

  function ScalarValue(doc: Document, s: ScalarField): Value {
    match s
    case DocId => Int(doc.pk)
    case Title => Str(doc.title)
    case Content => Str(doc.content)
    case Created => Time(doc.created)
    case Added => Time(doc.added)
    case Modified => Time(doc.modified)
    case Checksum => Str(doc.checksum)
  }

  function JoinedValue(c: Collections, j: JoinedField): Option<Value> {
    match j
    case Tag => NonEmpty(Join(TagNames(c.tags)))
    case TagId => NonEmpty(JoinIds(TagIds(c.tags)))
    case HasTag => Some(Bool(|Join(TagNames(c.tags))| > 0))
    case Notes => Some(Str(Join(c.notes)))
    case NumNotes => Some(Int(|Join(c.notes)|))
    case CustomFields => Some(Str(Join(CustomFieldTexts(c.customFields))))
    case CustomFieldCount => Some(Int(|c.customFields|))
    case HasCustomFields => Some(Bool(|Join(CustomFieldTexts(c.customFields))| > 0))
    case CustomFieldsId => NonEmpty(JoinIds(CustomFieldIds(c.customFields)))
    case ViewerId => NonEmpty(JoinIds(c.viewers))
    case IsShared => Some(Bool(|JoinIds(c.viewers)| > 0))
  }

  /** The value `tdoc` holds for a field (the keyword argument of the `dict(...)` call), `None` included. */
  function FieldValue(doc: Document, c: Collections, asnMin: int, asnMax: int, f: Field): Option<Value>
  {
    match f
    case Summary(r, p) => SummaryValue(RelationOf(doc, r), p)
    case Scalar(s) => Some(ScalarValue(doc, s))
    case Joined(j) => JoinedValue(c, j)
    case Asn => IndexedAsnValue(IndexedAsn(doc.archiveSerialNumber, asnMin, asnMax))
    case OriginalFilename => if doc.originalFilename.Some? then Some(Str(doc.originalFilename.value)) else None
  }

  /** The `tdoc` dictionary, `None` entries included: one entry per schema field. */
  function Fields(doc: Document, c: Collections, asnMin: int, asnMax: int): (tdoc: map<Field, Option<Value>>)
    ensures forall f :: f in tdoc && tdoc[f] == FieldValue(doc, c, asnMin, asnMax, f)
  {
    AllFieldsListed();
    map f | f in AllFields :: FieldValue(doc, c, asnMin, asnMax, f)
  }

  /** `{k: v for k, v in tdoc.items() if v is not None}`. */
  function DropNone(tdoc: map<Field, Option<Value>>): (r: Record)
    ensures forall f :: f in r <==> f in tdoc && tdoc[f].Some?
    ensures forall f :: f in r ==> tdoc[f] == Some(r[f])
  {
    map f | f in tdoc && tdoc[f].Some? :: tdoc[f].value
  }

  /** The record `update_document` passes to `add_document`. */
  function ProjectDocument(doc: Document, c: Collections, asnMin: int, asnMax: int): (rec: Record)
    ensures forall f :: f in rec <==> FieldValue(doc, c, asnMin, asnMax, f).Some?
    ensures forall f :: f in rec ==> FieldValue(doc, c, asnMin, asnMax, f) == Some(rec[f])
  {
    DropNone(Fields(doc, c, asnMin, asnMax))
  }

  /** The keyword arguments of `tantivy.Document(**tdoc_no_none)`: the record under its key strings. */
  function KeywordArguments(rec: Record): (kwargs: map<string, Value>)
    ensures forall f :: FieldName(f) in kwargs <==> f in rec
    ensures forall f :: f in rec ==> kwargs[FieldName(f)] == rec[f]
    ensures forall k :: k in kwargs ==> FieldNamed(k).Some? && FieldNamed(k).value in rec
  {
    FieldNameInjective();
    map f | f in rec :: FieldName(f) := rec[f]
  }

  /** The record summarises relation `r` under its name, id and `has_*` fields. */
  predicate Summarises(rec: Record, r: Relation, rel: Option<Related>) {
    && Summary(r, HasPart) in rec && rec[Summary(r, HasPart)] == Bool(rel.Some?)
    && (Summary(r, NamePart) in rec <==> rel.Some?)
    && (Summary(r, IdPart) in rec <==> rel.Some?)
    && (rel.Some? ==>
          rec[Summary(r, NamePart)] == Str(rel.value.name) && rec[Summary(r, IdPart)] == Int(rel.value.id))
  }

  /** Each optional relation gives a name, an id and a `has_*` flag; an absent one only the flag. */
  lemma RelationSummary(doc: Document, c: Collections, asnMin: int, asnMax: int, r: Relation)
    ensures Summarises(ProjectDocument(doc, c, asnMin, asnMax), r, RelationOf(doc, r))
  {
  }

  /** The four relations of the record, spelled out. */
  lemma RelationSummaries(doc: Document, c: Collections, asnMin: int, asnMax: int)
    ensures var rec := ProjectDocument(doc, c, asnMin, asnMax);
            && Summarises(rec, Correspondent, doc.correspondent)
            && Summarises(rec, DocumentType, doc.documentType)
            && Summarises(rec, StoragePath, doc.storagePath)
            && Summarises(rec, Owner, doc.owner)
  {
    RelationSummary(doc, c, asnMin, asnMax, Correspondent);
    RelationSummary(doc, c, asnMin, asnMax, DocumentType);
    RelationSummary(doc, c, asnMin, asnMax, StoragePath);
    RelationSummary(doc, c, asnMin, asnMax, Owner);
  }

  /** The ASN is in the record exactly when the document has one; an out-of-range one as 0. */
  lemma AsnField(doc: Document, c: Collections, asnMin: int, asnMax: int)
    ensures var rec := ProjectDocument(doc, c, asnMin, asnMax);
            var asn := doc.archiveSerialNumber;
            && (Asn in rec <==> asn.Some?)
            && (asn.Some? && asnMin <= asn.value <= asnMax ==> rec[Asn] == Int(asn.value))
            && (AsnOutOfRange(asn, asnMin, asnMax) ==> rec[Asn] == Int(0))
  {
  }

  /** The bounds themselves are kept; one past either bound is indexed as 0. */
  lemma AsnBoundaries(asnMin: int, asnMax: int)
    requires asnMin <= asnMax
    ensures IndexedAsn(Some(asnMin), asnMin, asnMax) == Some(asnMin)
    ensures IndexedAsn(Some(asnMax), asnMin, asnMax) == Some(asnMax)
    ensures IndexedAsn(Some(asnMin - 1), asnMin, asnMax) == Some(0)
    ensures IndexedAsn(Some(asnMax + 1), asnMin, asnMax) == Some(0)
  {
  }

  /** Every field copied from a non-null column of the document row is in every record, with the row's value. */
  lemma ScalarsPresent(doc: Document, c: Collections, asnMin: int, asnMax: int)
    ensures var rec := ProjectDocument(doc, c, asnMin, asnMax);
            forall s :: Scalar(s) in rec && rec[Scalar(s)] == ScalarValue(doc, s)
  {
  }

  /** `original_filename` is in the record exactly when the document has one. */
  lemma OriginalFilenameField(doc: Document, c: Collections, asnMin: int, asnMax: int)
    ensures var rec := ProjectDocument(doc, c, asnMin, asnMax);
            && (OriginalFilename in rec <==> doc.originalFilename.Some?)
            && (doc.originalFilename.Some? ==> rec[OriginalFilename] == Str(doc.originalFilename.value))
  {
  }

  /** `notes`, `num_notes`, `custom_fields` and `custom_field_count` are kept even when empty. */
  lemma CollectionsAlwaysPresent(doc: Document, c: Collections, asnMin: int, asnMax: int)
    ensures var rec := ProjectDocument(doc, c, asnMin, asnMax);
            && rec[Joined(Notes)] == Str(Join(c.notes))
            && Joined(NumNotes) in rec
            && rec[Joined(CustomFields)] == Str(Join(CustomFieldTexts(c.customFields)))
            && rec[Joined(CustomFieldCount)] == Int(|c.customFields|)
  {
  }

  /** `tag` is the joined tag names when they are not empty; `has_tag` and `has_custom_fields` test the joined text. */
  lemma JoinedTextFields(doc: Document, c: Collections, asnMin: int, asnMax: int)
    ensures var rec := ProjectDocument(doc, c, asnMin, asnMax);
            var tags := Join(TagNames(c.tags));
            var customFields := Join(CustomFieldTexts(c.customFields));
            && (Joined(Tag) in rec <==> tags != "")
            && (Joined(Tag) in rec ==> rec[Joined(Tag)] == Str(tags))
            && rec[Joined(HasTag)] == Bool(tags != "")
            && rec[Joined(HasCustomFields)] == Bool(customFields != "")
  {
  }

  /** The joined id fields are left out exactly when there are no ids; `is_shared` tests the viewers. */
  lemma JoinedIdFields(doc: Document, c: Collections, asnMin: int, asnMax: int)
    ensures var rec := ProjectDocument(doc, c, asnMin, asnMax);
            && (Joined(TagId) in rec <==> c.tags != [])
            && (Joined(CustomFieldsId) in rec <==> c.customFields != [])
            && (Joined(ViewerId) in rec <==> c.viewers != [])
            && rec[Joined(IsShared)] == Bool(c.viewers != [])
  {
  }

  /** `tag` is left out, and `has_tag` false, for no tags or a single tag with an empty name. */
  lemma TagPresence(doc: Document, c: Collections, asnMin: int, asnMax: int)
    ensures var rec := ProjectDocument(doc, c, asnMin, asnMax);
            var untagged := c.tags == [] || (|c.tags| == 1 && c.tags[0].name == "");
            && (Joined(Tag) in rec <==> !untagged)
            && rec[Joined(HasTag)] == Bool(!untagged)
  {
    JoinIsEmpty(TagNames(c.tags));
    if |c.tags| == 1 {
      assert TagNames(c.tags) == [c.tags[0].name];
    }
  }

  /** `num_notes` counts the characters of the joined notes, not the notes. */
  lemma NumNotesIsJoinedLength(doc: Document, c: Collections, asnMin: int, asnMax: int)
    ensures var rec := ProjectDocument(doc, c, asnMin, asnMax);
            rec[Joined(NumNotes)] == Int(if c.notes == [] then 0 else TotalLength(c.notes) + |c.notes| - 1)
  {
  }

  /** The comma-joined id fields read back as the ids they were built from. */
  lemma JoinedIdsRecoverable(doc: Document, c: Collections, asnMin: int, asnMax: int)
    ensures var rec := ProjectDocument(doc, c, asnMin, asnMax);
            && (Joined(TagId) in rec ==> rec[Joined(TagId)].Str? && ParseIds(rec[Joined(TagId)].s) == TagIds(c.tags))
            && (Joined(CustomFieldsId) in rec ==>
                  rec[Joined(CustomFieldsId)].Str?
                  && ParseIds(rec[Joined(CustomFieldsId)].s) == CustomFieldIds(c.customFields))
            && (Joined(ViewerId) in rec ==> rec[Joined(ViewerId)].Str? && ParseIds(rec[Joined(ViewerId)].s) == c.viewers)
  {
  }
}
