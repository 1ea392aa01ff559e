/**
 The manifest that states the size of the payload it is part of
 (`_write_public_payload_v2` in quant_data/atlas/exporter.py): its byte total counts
 its own digits, and so does the checksum file that records its length.
 */
module ManifestTotal {
  import opened Wrappers
  import opened Ordering
  import opened Digits
  import opened Json
  import opened JsonCanonical
  import opened Chunking

  const MAX_PUBLIC_BYTES: nat := 8 * 1024 * 1024
  const ROUNDS: nat := 16

  // ----- a value with a hole for the total -----

  /** `NonFinite` marks the place of the total; everything else stays. */
  function Fill(v: Value, total: nat): Value {
    match v
    case NonFinite => Int(total)
    case Arr(items) => Arr(FillItems(items, total))
    case Obj(fields) => Obj(FillFields(fields, total))
    case _ => v
  }

  function FillItems(items: seq<Value>, total: nat): (r: seq<Value>)
    ensures |r| == |items|
    ensures forall i :: 0 <= i < |items| ==> r[i] == Fill(items[i], total)
  {
    if items == [] then [] else [Fill(items[0], total)] + FillItems(items[1..], total)
  }

  function FillField(f: Field, total: nat): Field {
    Field(f.key, Fill(f.value, total))
  }

  function FillFields(fields: seq<Field>, total: nat): (r: seq<Field>)
    ensures |r| == |fields|
    ensures forall i :: 0 <= i < |fields| ==> r[i] == FillField(fields[i], total)
  {
    if fields == [] then [] else [FillField(fields[0], total)] + FillFields(fields[1..], total)
  }

  function Holes(v: Value): nat {
    match v
    case NonFinite => 1
    case Arr(items) => HolesInItems(items)
    case Obj(fields) => HolesInFields(fields)
    case _ => 0
  }

  function HolesInItems(items: seq<Value>): nat {
    if items == [] then 0 else Holes(items[0]) + HolesInItems(items[1..])
  }

  function HolesInFields(fields: seq<Field>): nat {
    if fields == [] then 0 else Holes(fields[0].value) + HolesInFields(fields[1..])
  }

  // ----- the files of a payload -----

  datatype PublicFile = PublicFile(path: string, sha256: string, bytes: nat)

  /** The manifest, with a hole where its byte total goes, and the files already written. */
  datatype Draft = Draft(template: Value, files: seq<PublicFile>)

  predicate IsDigest(s: string) {
    |s| == 64 && forall i :: 0 <= i < |s| ==> IsDigit(s[i]) || 'a' <= s[i] <= 'f'
  }

  function Record(file: PublicFile): Value {
    Obj([Field("path", Str(file.path)), Field("sha256", Str(file.sha256)), Field("bytes", Int(file.bytes))])
  }

  function Records(files: seq<PublicFile>): (r: seq<Value>)
    ensures |r| == |files|
    ensures forall i :: 0 <= i < |files| ==> r[i] == Record(files[i])
  {
    if files == [] then [] else [Record(files[0])] + Records(files[1..])
  }

  function FileBytes(files: seq<PublicFile>): nat {
    if files == [] then 0 else files[0].bytes + FileBytes(files[1..])
  }

  function Manifest(draft: Draft, total: nat): Value {
    Fill(draft.template, total)
  }

  function ManifestFile(manifest: string, sha256: string -> string): PublicFile {
    PublicFile("data/manifest.json", sha256(manifest), Utf8Length(manifest))
  }

  function Checksums(draft: Draft, manifest: string, sha256: string -> string): Value {
    Obj([Field("files", Arr(Records(draft.files) + [Record(ManifestFile(manifest, sha256))]))])
  }

  function TextOf(v: Value): string {
    Print(SortKeys(v))
  }

  /** Bytes of all files when the manifest states `total`. */
  function TotalOf(draft: Draft, sha256: string -> string, total: nat): nat {
    var manifest := TextOf(Manifest(draft, total));
    FileBytes(draft.files) + Utf8Length(manifest) + Utf8Length(TextOf(Checksums(draft, manifest, sha256)))
  }

  // ----- filling the hole and sorting keys commute -----

  lemma {:induction false} FillInsert(s: seq<Field>, x: Field, total: nat)
    ensures Insert(FillFields(s, total), FillField(x, total), FieldLt) == FillFields(Insert(s, x, FieldLt), total)
  {
    hide Fill, TextLt;
    if s != [] && !FieldLt(x, s[0]) {
      FillInsert(s[1..], x, total);
      assert FillFields(s, total)[1..] == FillFields(s[1..], total);
      assert ([s[0]] + Insert(s[1..], x, FieldLt))[1..] == Insert(s[1..], x, FieldLt);
    } else if s != [] {
      assert ([x] + s)[1..] == s;
    } else {
      assert [x][1..] == [];
    }
  }

  lemma {:induction false} FillSort(s: seq<Field>, total: nat)
    ensures Sort(FillFields(s, total), FieldLt) == FillFields(Sort(s, FieldLt), total)
  {
    hide Fill, FieldLt;
    if s != [] {
      var n := |s| - 1;
      assert FillFields(s, total)[..n] == FillFields(s[..n], total);
      FillSort(s[..n], total);
      FillInsert(Sort(s[..n], FieldLt), s[n], total);
    }
  }

  lemma {:induction false} FillSorts(v: Value, total: nat)
    ensures SortKeys(Fill(v, total)) == Fill(SortKeys(v), total)
    decreases v, 1
  {
    hide Sort, FieldLt, SortItems, FillItems, SortFieldValues, FillFields;
    match v
    case Arr(items) => FillSortsItems(items, total);
    case Obj(fields) =>
      FillSortsFields(fields, total);
      FillSort(SortFieldValues(fields), total);
    case _ =>
  }

  lemma {:induction false} FillSortsItems(items: seq<Value>, total: nat)
    ensures SortItems(FillItems(items, total)) == FillItems(SortItems(items), total)
    decreases items, 0
  {
    if items != [] {
      FillSorts(items[0], total);
      FillSortsItems(items[1..], total);
      hide SortKeys, Fill;
      assert FillItems(items, total)[1..] == FillItems(items[1..], total);
      assert SortItems(items)[1..] == SortItems(items[1..]);
    }
  }

  lemma {:induction false} FillSortsFields(fields: seq<Field>, total: nat)
    ensures SortFieldValues(FillFields(fields, total)) == FillFields(SortFieldValues(fields), total)
    decreases fields, 0
  {
    if fields != [] {
      FillSorts(fields[0].value, total);
      FillSortsFields(fields[1..], total);
      hide SortKeys, Fill;
      assert FillFields(fields, total)[1..] == FillFields(fields[1..], total);
      assert SortFieldValues(fields)[1..] == SortFieldValues(fields[1..]);
    }
  }

  lemma {:induction false} HolesInsert(s: seq<Field>, x: Field)
    ensures HolesInFields(Insert(s, x, FieldLt)) == HolesInFields(s) + Holes(x.value)
  {
    hide Holes, FieldLt;
    if s != [] && !FieldLt(x, s[0]) {
      HolesInsert(s[1..], x);
      assert ([s[0]] + Insert(s[1..], x, FieldLt))[1..] == Insert(s[1..], x, FieldLt);
    } else if s != [] {
      assert ([x] + s)[1..] == s;
    } else {
      assert [x][1..] == [];
    }
  }

  lemma {:induction false} HolesSnoc(s: seq<Field>, x: Field)
    ensures HolesInFields(s + [x]) == HolesInFields(s) + Holes(x.value)
  {
    hide Holes;
    if s == [] {
      assert [] + [x] == [x] && [x][1..] == [];
    } else {
      HolesSnoc(s[1..], x);
      assert (s + [x])[1..] == s[1..] + [x];
    }
  }

  lemma {:induction false} FieldSortLast(s: seq<Field>)
    requires s != []
    ensures Sort(s, FieldLt) == Insert(Sort(s[..|s| - 1], FieldLt), s[|s| - 1], FieldLt)
  {
    hide Insert, FieldLt;
  }

  lemma {:induction false} HolesSort(s: seq<Field>)
    ensures HolesInFields(Sort(s, FieldLt)) == HolesInFields(s)
  {
    hide Holes, HolesInFields, FieldLt, Sort;
    if s != [] {
      var n := |s| - 1;
      FieldSortLast(s);
      HolesSort(s[..n]);
      HolesInsert(Sort(s[..n], FieldLt), s[n]);
      HolesSnoc(s[..n], s[n]);
      assert s[..n] + [s[n]] == s;
    }
  }

  lemma {:induction false} HolesStay(v: Value)
    ensures Holes(SortKeys(v)) == Holes(v)
    decreases v, 1
  {
    hide Sort;
    match v
    case Arr(items) => ItemHolesStay(items);
    case Obj(fields) =>
      HolesSort(SortFieldValues(fields));
      FieldHolesStay(fields);
    case _ =>
  }

  lemma {:induction false} ItemHolesStay(items: seq<Value>)
    ensures HolesInItems(SortItems(items)) == HolesInItems(items)
    decreases items, 0
  {
    if items != [] {
      HolesStay(items[0]);
      ItemHolesStay(items[1..]);
    }
  }

  lemma {:induction false} FieldHolesStay(fields: seq<Field>)
    ensures HolesInFields(SortFieldValues(fields)) == HolesInFields(fields)
    decreases fields, 0
  {
    if fields != [] {
      HolesStay(fields[0].value);
      FieldHolesStay(fields[1..]);
    }
  }

  // ----- the size of a filled value -----

  lemma {:induction false} PlainBytes(s: string)
    requires forall i :: 0 <= i < |s| ==> s[i] < '\U{80}'
    ensures Utf8Length(s) == |s|
  {
    if s != [] { PlainBytes(s[1..]); }
  }

  lemma NumberBytes(n: nat)
    ensures Utf8Length(Print(Int(n))) == DigitCount(n)
  {
    PlainBytes(NatText(n));
  }

  /** `d` digits in each of `holes` holes. */
  function Spread(holes: nat, d: nat): nat {
    holes * d
  }

  lemma {:induction false} FilledBytes(v: Value, total: nat)
    ensures Utf8Length(Print(Fill(v, total))) == Utf8Length(Print(v)) + Spread(Holes(v), DigitCount(total))
    decreases v, 1
  {
    hide Utf8Length, DigitCount, Join, PrintItems, PrintFields, FillItems, FillFields, HolesInItems, HolesInFields;
    match v
    case NonFinite =>
      NumberBytes(total);
      assert Utf8Length("") == 0 by { EmptyList(); }
    case Arr(items) =>
      FilledItemBytes(items, total);
      EnclosedBytes("[", Join(PrintItems(items)), "]");
      EnclosedBytes("[", Join(PrintItems(FillItems(items, total))), "]");
    case Obj(fields) =>
      FilledFieldBytes(fields, total);
      EnclosedBytes("{", Join(PrintFields(fields)), "}");
      EnclosedBytes("{", Join(PrintFields(FillFields(fields, total))), "}");
    case _ =>
  }

  lemma {:induction false} EnclosedBytes(a: string, b: string, c: string)
    ensures Utf8Length(a + b + c) == Utf8Length(a) + Utf8Length(b) + Utf8Length(c)
  {
    Utf8Concat(a + b, c);
    Utf8Concat(a, b);
  }

  lemma Grown(first: nat, grownFirst: nat, rest: nat, grownRest: nat, h: nat, k: nat, d: nat)
    requires grownFirst == first + Spread(h, d) && grownRest == rest + Spread(k, d)
    ensures grownFirst + grownRest == first + rest + Spread(h + k, d)
  {
  }

  lemma {:induction false} JoinCons(part: string, parts: seq<string>)
    ensures Utf8Length(Join([part] + parts)) ==
      Utf8Length(part) + Utf8Length(Join(parts)) + (if parts == [] then 0 else 1)
  {
    assert ([part] + parts)[1..] == parts;
    if parts != [] {
      EnclosedBytes(part, ",", Join(parts));
      CommaIsOneByte();
    } else {
      EmptyList();
    }
  }

  lemma {:induction false} PrintedItems(item: Value, rest: seq<Value>)
    ensures Utf8Length(Join(PrintItems([item] + rest))) ==
      Utf8Length(Print(item)) + Utf8Length(Join(PrintItems(rest))) + (if rest == [] then 0 else 1)
  {
    hide Utf8Length, Join, Print;
    assert ([item] + rest)[1..] == rest;
    JoinCons(Print(item), PrintItems(rest));
  }

  lemma {:induction false} PrintedFields(f: Field, rest: seq<Field>)
    ensures Utf8Length(Join(PrintFields([f] + rest))) ==
      Utf8Length(PrintField(f)) + Utf8Length(Join(PrintFields(rest))) + (if rest == [] then 0 else 1)
  {
    hide Utf8Length, Join, PrintField;
    assert ([f] + rest)[1..] == rest;
    JoinCons(PrintField(f), PrintFields(rest));
  }

  lemma {:induction false} ItemInFront(item: Value, rest: seq<Value>, total: nat)
    ensures FillItems([item] + rest, total) == [Fill(item, total)] + FillItems(rest, total)
    ensures HolesInItems([item] + rest) == Holes(item) + HolesInItems(rest)
  {
    hide Fill, Holes;
    assert ([item] + rest)[1..] == rest;
  }

  lemma {:induction false} FilledItemInFront(item: Value, rest: seq<Value>, total: nat)
    requires Utf8Length(Print(Fill(item, total))) == Utf8Length(Print(item)) + Spread(Holes(item), DigitCount(total))
    requires Utf8Length(Join(PrintItems(FillItems(rest, total)))) ==
      Utf8Length(Join(PrintItems(rest))) + Spread(HolesInItems(rest), DigitCount(total))
    ensures Utf8Length(Join(PrintItems(FillItems([item] + rest, total)))) ==
      Utf8Length(Join(PrintItems([item] + rest))) + Spread(HolesInItems([item] + rest), DigitCount(total))
  {
    hide Utf8Length, DigitCount, Join, Print, PrintItems, Fill, FillItems, Holes, HolesInItems, Spread;
    ItemInFront(item, rest, total);
    Grown(Utf8Length(Print(item)), Utf8Length(Print(Fill(item, total))),
          Utf8Length(Join(PrintItems(rest))), Utf8Length(Join(PrintItems(FillItems(rest, total)))),
          Holes(item), HolesInItems(rest), DigitCount(total));
    PrintedItems(item, rest);
    PrintedItems(Fill(item, total), FillItems(rest, total));
  }

  lemma {:induction false} FilledItemBytes(items: seq<Value>, total: nat)
    ensures Utf8Length(Join(PrintItems(FillItems(items, total)))) ==
      Utf8Length(Join(PrintItems(items))) + Spread(HolesInItems(items), DigitCount(total))
    decreases items, 0
  {
    if items == [] {
    } else {
      FilledBytes(items[0], total);
      FilledItemBytes(items[1..], total);
      hide Utf8Length, DigitCount, Join, Print, PrintItems, Fill, FillItems, Holes, HolesInItems, Spread;
      FilledItemInFront(items[0], items[1..], total);
      assert [items[0]] + items[1..] == items;
    }
  }

  lemma {:induction false} FilledOneField(f: Field, total: nat)
    requires Utf8Length(Print(Fill(f.value, total))) ==
      Utf8Length(Print(f.value)) + Spread(Holes(f.value), DigitCount(total))
    ensures Utf8Length(PrintField(FillField(f, total))) ==
      Utf8Length(PrintField(f)) + Spread(Holes(f.value), DigitCount(total))
  {
    hide Utf8Length, DigitCount, Print, Fill, Holes, Quote, Spread;
    EnclosedBytes(Quote(f.key), ":", Print(f.value));
    EnclosedBytes(Quote(f.key), ":", Print(Fill(f.value, total)));
  }

  lemma {:induction false} FieldInFront(f: Field, rest: seq<Field>, total: nat)
    ensures FillFields([f] + rest, total) == [FillField(f, total)] + FillFields(rest, total)
    ensures HolesInFields([f] + rest) == Holes(f.value) + HolesInFields(rest)
  {
    hide FillField, Holes;
    assert ([f] + rest)[1..] == rest;
  }

  lemma {:induction false} FilledFieldInFront(f: Field, rest: seq<Field>, total: nat)
    requires Utf8Length(PrintField(FillField(f, total))) ==
      Utf8Length(PrintField(f)) + Spread(Holes(f.value), DigitCount(total))
    requires Utf8Length(Join(PrintFields(FillFields(rest, total)))) ==
      Utf8Length(Join(PrintFields(rest))) + Spread(HolesInFields(rest), DigitCount(total))
    ensures Utf8Length(Join(PrintFields(FillFields([f] + rest, total)))) ==
      Utf8Length(Join(PrintFields([f] + rest))) + Spread(HolesInFields([f] + rest), DigitCount(total))
  {
    hide Utf8Length, DigitCount, Join, PrintField, PrintFields, FillField, FillFields, Holes, HolesInFields, Spread;
    FieldInFront(f, rest, total);
    Grown(Utf8Length(PrintField(f)), Utf8Length(PrintField(FillField(f, total))),
          Utf8Length(Join(PrintFields(rest))), Utf8Length(Join(PrintFields(FillFields(rest, total)))),
          Holes(f.value), HolesInFields(rest), DigitCount(total));
    PrintedFields(f, rest);
    PrintedFields(FillField(f, total), FillFields(rest, total));
  }

  lemma {:induction false} FilledFieldBytes(fields: seq<Field>, total: nat)
    ensures Utf8Length(Join(PrintFields(FillFields(fields, total)))) ==
      Utf8Length(Join(PrintFields(fields))) + Spread(HolesInFields(fields), DigitCount(total))
    decreases fields, 0
  {
    if fields == [] {
    } else {
      FilledBytes(fields[0].value, total);
      FilledOneField(fields[0], total);
      FilledFieldBytes(fields[1..], total);
      hide Utf8Length, DigitCount, Join, PrintField, PrintFields, FillField, FillFields, Holes, HolesInFields, Spread;
      FilledFieldInFront(fields[0], fields[1..], total);
      assert [fields[0]] + fields[1..] == fields;
    }
  }

  /** The manifest grows by the digits of the total it states. */
  lemma ManifestBytes(draft: Draft, total: nat)
    requires Holes(draft.template) == 1
    ensures Utf8Length(TextOf(Manifest(draft, total))) == Utf8Length(TextOf(draft.template)) + DigitCount(total)
  {
    hide SortKeys, Print, Utf8Length, DigitCount, Holes, Fill;
    FillSorts(draft.template, total);
    HolesStay(draft.template);
    FilledBytes(SortKeys(draft.template), total);
  }

  // ----- the size of the checksum file -----

  lemma {:induction false} DigestText(s: string)
    requires forall i :: 0 <= i < |s| ==> IsDigit(s[i]) || 'a' <= s[i] <= 'f'
    ensures EscapeText(s) == s && Utf8Length(s) == |s|
  {
    if s != [] {
      DigestText(s[1..]);
      assert [s[0]] + s[1..] == s;
    }
  }

  lemma RecordKeysOrder()
    ensures TextLt("path", "sha256") && !TextLt("sha256", "path")
    ensures TextLt("bytes", "path")
  {
  }

  lemma InsertIntoPair<T>(a: T, b: T, c: T, lt: (T, T) -> bool)
    requires !lt(b, a) && lt(c, a)
    ensures Insert([a], b, lt) == [a, b] && Insert([a, b], c, lt) == [c, a, b] && Insert([], a, lt) == [a]
  {
    assert [a][1..] == [];
  }

  lemma SortThree<T>(a: T, b: T, c: T, lt: (T, T) -> bool)
    requires !lt(b, a) && lt(c, a)
    ensures Sort([a, b, c], lt) == [c, a, b]
  {
    InsertIntoPair(a, b, c, lt);
    hide Insert;
    assert [a, b, c][..2] == [a, b] && [a, b][..1] == [a] && [a][..0] == [];
    assert Sort([a], lt) == [a];
    assert Sort([a, b], lt) == [a, b];
  }

  lemma RecordLeaves(file: PublicFile)
    ensures SortKeys(Str(file.path)) == Str(file.path) && SortKeys(Str(file.sha256)) == Str(file.sha256)
    ensures SortKeys(Int(file.bytes)) == Int(file.bytes)
  {
  }

  /** The codec writes the keys of a record in sorted order. */
  lemma RecordSorted(file: PublicFile)
    ensures SortKeys(Record(file)) ==
      Obj([Field("bytes", Int(file.bytes)), Field("path", Str(file.path)), Field("sha256", Str(file.sha256))])
  {
    var path, digest, bytes :=
      Field("path", Str(file.path)), Field("sha256", Str(file.sha256)), Field("bytes", Int(file.bytes));
    RecordKeysOrder();
    SortKeysOfObject([path, digest, bytes]);
    PreparedRecord(file);
    hide TextLt, SortKeys, SortFieldValues, Sort;
    SortThree(path, digest, bytes, FieldLt);
  }

  lemma PreparedRecord(file: PublicFile)
    ensures SortFieldValues(Record(file).fields) == Record(file).fields
  {
    RecordLeaves(file);
    hide SortKeys, SortFieldValues;
    assert |SortFieldValues(Record(file).fields)| == 3;
  }

  lemma {:induction false} SortKeysOfObject(fields: seq<Field>)
    ensures SortKeys(Obj(fields)) == Obj(Sort(SortFieldValues(fields), FieldLt))
  {
  }

  /** Bytes of a record that depend on neither its digest nor its byte count. */
  function RecordFrame(path: string): nat {
    Utf8Length(Quote("bytes")) + Utf8Length(Quote("sha256")) + Utf8Length(PrintField(Field("path", Str(path)))) + 8
  }

  lemma {:induction false} FieldBytes(f: Field)
    ensures Utf8Length(PrintField(f)) == Utf8Length(Quote(f.key)) + 1 + Utf8Length(Print(f.value))
  {
    hide Quote, Print;
    EnclosedBytes(Quote(f.key), ":", Print(f.value));
  }

  lemma {:induction false} QuotedBytes(s: string)
    ensures Utf8Length(Quote(s)) == Utf8Length(EscapeText(s)) + 2
  {
    hide EscapeText;
    EnclosedBytes("\"", EscapeText(s), "\"");
  }

  lemma RecordBytes(file: PublicFile)
    ensures RowBytes(Record(file)) ==
      RecordFrame(file.path) + DigitCount(file.bytes) + Utf8Length(EscapeText(file.sha256))
  {
    var bytes, path, digest :=
      Field("bytes", Int(file.bytes)), Field("path", Str(file.path)), Field("sha256", Str(file.sha256));
    RecordSorted(file);
    NumberBytes(file.bytes);
    FieldBytes(bytes);
    FieldBytes(digest);
    QuotedBytes(file.sha256);
    ThreeFieldBytes(bytes, path, digest);
    hide SortKeys, Utf8Length, Quote, EscapeText, DigitCount, PrintField;
    assert Print(digest.value) == Quote(file.sha256);
  }

  lemma {:induction false} ThreeFieldBytes(a: Field, b: Field, c: Field)
    ensures Utf8Length(Print(Obj([a, b, c]))) ==
      Utf8Length(PrintField(a)) + Utf8Length(PrintField(b)) + Utf8Length(PrintField(c)) + 4
  {
    CommaIsOneByte();
    EmptyFields();
    BraceIsOneByte();
    hide Utf8Length, PrintField, PrintFields, Join;
    assert [a] + ([b] + ([c] + [])) == [a, b, c];
    PrintedFields(a, [b] + ([c] + []));
    PrintedFields(b, [c] + []);
    PrintedFields(c, []);
    EnclosedBytes("{", Join(PrintFields([a, b, c])), "}");
  }

  lemma EmptyFields()
    ensures Join(PrintFields([])) == "" && Utf8Length("") == 0
  {
  }

  lemma BraceIsOneByte()
    ensures Utf8Length("{") == 1 && Utf8Length("}") == 1
  {
  }

  lemma ChecksumsText(rows: seq<Value>)
    ensures Utf8Length(TextOf(Obj([Field("files", Arr(rows))]))) == Utf8Length(Quote("files")) + 3 + ListBytes(rows)
  {
    var files := Field("files", Arr(rows));
    var sorted := Field("files", SortKeys(Arr(rows)));
    OneFieldSorted(files);
    ListTextBytes(rows);
    FieldBytes(sorted);
    EmptyFields();
    BraceIsOneByte();
    hide Utf8Length, PrintFields, PrintField, Join, SortKeys, Quote, ListBytes;
    assert [sorted] + [] == [sorted];
    PrintedFields(sorted, []);
    EnclosedBytes("{", Join(PrintFields([sorted])), "}");
  }

  lemma OneFieldSorted(f: Field)
    ensures SortKeys(Obj([f])) == Obj([Field(f.key, SortKeys(f.value))])
  {
    hide FieldLt;
    var g := Field(f.key, SortKeys(f.value));
    assert SortFieldValues([f]) == [g];
    assert [g][..0] == [];
  }

  // ----- the total in closed form -----

  /** Bytes that do not depend on the total stated. */
  function FixedBytes(draft: Draft): nat {
    FileBytes(draft.files) + Utf8Length(TextOf(draft.template))
      + Utf8Length(Quote("files")) + 5 + SumBytes(Records(draft.files)) + |draft.files|
      + RecordFrame("data/manifest.json") + 64
  }

  function NextTotal(fixed: nat, manifest: nat, total: nat): nat {
    fixed + DigitCount(total) + DigitCount(manifest + DigitCount(total))
  }

  lemma TotalInClosedForm(draft: Draft, sha256: string -> string, total: nat)
    requires Holes(draft.template) == 1 && forall text :: IsDigest(sha256(text))
    ensures TotalOf(draft, sha256, total) ==
      NextTotal(FixedBytes(draft), Utf8Length(TextOf(draft.template)), total)
  {
    hide TextOf, Utf8Length, DigitCount, Holes, Fill, Quote, SumBytes, RecordFrame, Record, Records, RowBytes;
    var manifest := TextOf(Manifest(draft, total));
    var rows := Records(draft.files);
    var file := ManifestFile(manifest, sha256);
    ManifestBytes(draft, total);
    RecordBytes(file);
    DigestText(file.sha256);
    ListBytesWith(rows, Record(file));
    ChecksumsText(rows + [Record(file)]);
  }

  lemma {:induction false} ListBytesWith(rows: seq<Value>, row: Value)
    ensures ListBytes(rows + [row]) == 2 + SumBytes(rows) + RowBytes(row) + |rows|
  {
    hide RowBytes;
    SumBytesConcat(rows, [row]);
    SumBytesConcat([], [row]);
    assert [row][..0] == [];
  }

  // ----- digit counts settle -----

  lemma {:induction false} DigitsBelow(n: nat, k: nat)
    requires k >= 1 && n < Pow(10, k)
    ensures DigitCount(n) <= k
  {
    DigitCountBounds(n);
    if DigitCount(n) > k { PowMonotone(10, k, DigitCount(n) - 1); }
  }

  /** Growing a number by less than ten adds at most one digit, and then none for a while. */
  lemma DigitStep(x: nat, y: nat)
    requires 1 <= x <= y <= x + 9
    ensures DigitCount(x) <= DigitCount(y) <= DigitCount(x) + 1
  {
    DigitCountMonotone(x, y);
    DigitCountBounds(x);
    var p := Pow(10, DigitCount(x));
    assert Pow(10, DigitCount(x) + 1) == 10 * p;
    DigitsBelow(y, DigitCount(x) + 1);
  }

  lemma PastThePower(x: nat, y: nat, z: nat)
    requires 10 <= x <= y <= z <= x + 9 && DigitCount(x) < DigitCount(y)
    ensures DigitCount(z) == DigitCount(y)
  {
    DigitStep(x, y);
    DigitStep(x, z);
    DigitCountMonotone(y, z);
  }

  lemma SevenDigits(n: nat)
    requires n <= MAX_PUBLIC_BYTES
    ensures DigitCount(n) <= 7
  {
    assert Pow(10, 7) == 10000000;
    DigitsBelow(n, 7);
  }

  lemma NextTotalMonotone(fixed: nat, manifest: nat, a: nat, b: nat)
    requires a <= b
    ensures NextTotal(fixed, manifest, a) <= NextTotal(fixed, manifest, b)
  {
    DigitCountMonotone(a, b);
    DigitCountMonotone(manifest + DigitCount(a), manifest + DigitCount(b));
  }

  /** The total stated after `n` rounds. */
  function Round(fixed: nat, manifest: nat, n: nat): nat {
    if n == 0 then 0 else NextTotal(fixed, manifest, Round(fixed, manifest, n - 1))
  }

  lemma {:induction false} RoundsStayBelow(fixed: nat, manifest: nat, n: nat, settled: nat)
    requires NextTotal(fixed, manifest, settled) == settled
    ensures Round(fixed, manifest, n) <= settled
  {
    if n > 0 {
      RoundsStayBelow(fixed, manifest, n - 1, settled);
      NextTotalMonotone(fixed, manifest, Round(fixed, manifest, n - 1), settled);
    }
  }

  lemma {:induction false} RoundsGrow(fixed: nat, manifest: nat, n: nat)
    ensures Round(fixed, manifest, n) <= Round(fixed, manifest, n + 1)
  {
    hide NextTotal;
    if n > 0 {
      RoundsGrow(fixed, manifest, n - 1);
      NextTotalMonotone(fixed, manifest, Round(fixed, manifest, n - 1), Round(fixed, manifest, n));
    }
  }

  /** Within the byte bound the third value is already the total. */
  lemma {:induction false} SettledAfterThree(fixed: nat, manifest: nat)
    requires fixed >= 10
    requires Round(fixed, manifest, 3) <= MAX_PUBLIC_BYTES
    ensures NextTotal(fixed, manifest, Round(fixed, manifest, 3)) == Round(fixed, manifest, 3)
  {
    hide NextTotal, Round;
    FirstRounds(fixed, manifest);
    RoundsGrow(fixed, manifest, 1);
    RoundsGrow(fixed, manifest, 2);
    ThirdSettles(fixed, manifest, Round(fixed, manifest, 1), Round(fixed, manifest, 2), Round(fixed, manifest, 3));
  }

  lemma {:induction false} FirstRounds(fixed: nat, manifest: nat)
    ensures Round(fixed, manifest, 1) == NextTotal(fixed, manifest, 0)
    ensures Round(fixed, manifest, 2) == NextTotal(fixed, manifest, Round(fixed, manifest, 1))
    ensures Round(fixed, manifest, 3) == NextTotal(fixed, manifest, Round(fixed, manifest, 2))
  {
    hide NextTotal;
    assert Round(fixed, manifest, 0) == 0;
  }

  lemma ThirdSettles(fixed: nat, manifest: nat, t1: nat, t2: nat, t3: nat)
    requires fixed >= 10 && t1 <= t2 <= t3 <= MAX_PUBLIC_BYTES
    requires t1 == NextTotal(fixed, manifest, 0)
    requires t2 == NextTotal(fixed, manifest, t1) && t3 == NextTotal(fixed, manifest, t2)
    ensures NextTotal(fixed, manifest, t3) == t3
  {
    hide NextTotal, DigitCount;
    SecondStep(fixed, manifest, t1, t2);
    if DigitCount(t1) == DigitCount(t2) {
      SameDigits(fixed, manifest, t1, t2);
    } else {
      DigitStep(t1, t2);
      OneMoreDigit(fixed, manifest, t1, t2);
      PastThePower(t1, t2, t3);
      SameDigits(fixed, manifest, t2, t3);
    }
  }

  /** A total enters the next one through its digits alone. */
  lemma SameDigits(fixed: nat, manifest: nat, a: nat, b: nat)
    requires DigitCount(a) == DigitCount(b)
    ensures NextTotal(fixed, manifest, a) == NextTotal(fixed, manifest, b)
  {
    hide DigitCount;
  }

  /** One more digit adds at most two bytes: itself, and one in the manifest's size. */
  lemma OneMoreDigit(fixed: nat, manifest: nat, a: nat, b: nat)
    requires DigitCount(b) == DigitCount(a) + 1
    ensures NextTotal(fixed, manifest, b) <= NextTotal(fixed, manifest, a) + 2
  {
    hide DigitCount;
    SomeDigit(a);
    DigitStep(manifest + DigitCount(a), manifest + DigitCount(b));
  }

  lemma SomeDigit(n: nat)
    ensures DigitCount(n) >= 1
  {
    hide NatText;
  }

  lemma SecondStep(fixed: nat, manifest: nat, t1: nat, t2: nat)
    requires fixed >= 10
    requires t1 == NextTotal(fixed, manifest, 0) && t2 == NextTotal(fixed, manifest, t1)
    requires t1 <= t2 <= MAX_PUBLIC_BYTES
    ensures t1 >= 10 && t2 <= t1 + 7
  {
    SevenDigits(t1);
    assert DigitCount(0) == 1;
    DigitCountMonotone(0, t1);
    DigitStep(manifest + 1, manifest + DigitCount(t1));
  }

  // ----- what the codec refuses -----

  lemma SmallIntegers(n: nat)
    requires n <= MAX_PUBLIC_BYTES
    ensures IntegerWithinLimits(n)
  {
    assert Pow(2, 12) == 4096;
    PowAdd(2, 12, 12);
    BitLengthBound(n, 24);
  }

  /** A total within the byte bound never changes what the codec refuses. */
  lemma {:induction false} RefusalStays(v: Value, total: nat, depth: nat)
    requires total <= MAX_PUBLIC_BYTES
    ensures Refusal(Fill(v, total), depth) == Refusal(Fill(v, 0), depth)
    decreases v, 1
  {
    hide IntegerWithinLimits, FillItems, FillFields, RefusalInItems, RefusalInFields, DecimalWithinLimits;
    match v
    case NonFinite =>
      SmallIntegers(total);
      SmallIntegers(0);
    case Arr(items) => ItemRefusalStays(items, total, depth + 1);
    case Obj(fields) => FieldRefusalStays(fields, total, depth + 1);
    case _ =>
  }

  lemma {:induction false} ItemRefusalStays(items: seq<Value>, total: nat, depth: nat)
    requires total <= MAX_PUBLIC_BYTES
    ensures RefusalInItems(FillItems(items, total), depth) == RefusalInItems(FillItems(items, 0), depth)
    decreases items, 0
  {
    if items != [] {
      RefusalStays(items[0], total, depth);
      ItemRefusalStays(items[1..], total, depth);
      hide Refusal, Fill;
      assert FillItems(items, total)[1..] == FillItems(items[1..], total);
      assert FillItems(items, 0)[1..] == FillItems(items[1..], 0);
    }
  }

  lemma {:induction false} FieldRefusalStays(fields: seq<Field>, total: nat, depth: nat)
    requires total <= MAX_PUBLIC_BYTES
    ensures RefusalInFields(FillFields(fields, total), depth) == RefusalInFields(FillFields(fields, 0), depth)
    decreases fields, 0
  {
    if fields != [] {
      RefusalStays(fields[0].value, total, depth);
      FieldRefusalStays(fields[1..], total, depth);
      hide Refusal, Fill;
      assert FillFields(fields, total)[1..] == FillFields(fields[1..], total);
      assert FillFields(fields, 0)[1..] == FillFields(fields[1..], 0);
    }
  }

  /** What the codec refuses about the manifest, whatever total it states. */
  function ManifestRefusal(draft: Draft): Option<Fault> {
    Refusal(SortKeys(Manifest(draft, 0)), 0)
  }

  lemma ManifestEncoding(draft: Draft, total: nat)
    requires total <= MAX_PUBLIC_BYTES
    ensures var manifest := Manifest(draft, total);
      Dumped(manifest) == match ManifestRefusal(draft)
        case Some(e) => Err(e)
        case None => if Utf8Length(TextOf(manifest)) > MAX_JSON_BYTES then Err(ResourceLimit) else Ok(TextOf(manifest))
  {
    hide SortKeys, Fill, Print, Refusal, Utf8Length;
    FillSorts(draft.template, total);
    FillSorts(draft.template, 0);
    RefusalStays(SortKeys(draft.template), total, 0);
  }

  lemma RecordRefusal(file: PublicFile)
    ensures Refusal(SortKeys(Record(file)), 2) ==
      if IntegerWithinLimits(file.bytes) then None else Some(ResourceLimit)
  {
    RecordSorted(file);
    hide SortKeys, IntegerWithinLimits;
    var fields := [Field("bytes", Int(file.bytes)), Field("path", Str(file.path)), Field("sha256", Str(file.sha256))];
    assert fields[1..] == [fields[1], fields[2]] && fields[1..][1..] == [fields[2]] && [fields[2]][1..] == [];
    assert Refusal(fields[1].value, 3) == None && Refusal(fields[2].value, 3) == None;
    assert RefusalInFields([fields[2]], 3) == None;
  }

  lemma {:induction false} RecordsRefusal(files: seq<PublicFile>)
    ensures var refused := RefusalInItems(SortItems(Records(files)), 2);
      && (refused == None || refused == Some(ResourceLimit))
      && (refused == None <==> forall i :: 0 <= i < |files| ==> IntegerWithinLimits(files[i].bytes))
  {
    hide IntegerWithinLimits, SortKeys, Refusal, Record;
    if files != [] {
      RecordRefusal(files[0]);
      RecordsRefusal(files[1..]);
      assert SortItems(Records(files))[1..] == SortItems(Records(files[1..]));
      assert forall i :: 1 <= i < |files| ==> files[i] == files[1..][i - 1];
      assert forall i :: 0 <= i < |files[1..]| ==> files[1..][i] == files[i + 1];
    }
  }

  lemma {:induction false} OneFileAmongAll(files: seq<PublicFile>, i: nat)
    requires i < |files|
    ensures files[i].bytes <= FileBytes(files)
  {
    if i > 0 { OneFileAmongAll(files[1..], i - 1); }
  }

  lemma {:induction false} ChecksumsRefusal(rows: seq<Value>)
    ensures Refusal(SortKeys(Obj([Field("files", Arr(rows))])), 0) == RefusalInItems(SortItems(rows), 2)
  {
    hide SortItems, RefusalInItems;
    OneFieldSorted(Field("files", Arr(rows)));
    var g := Field("files", SortKeys(Arr(rows)));
    assert [g][1..] == [];
    assert Refusal(g.value, 1) == RefusalInItems(SortItems(rows), 2);
  }

  lemma {:induction false} SmallFilesWithinLimits(files: seq<PublicFile>, last: PublicFile)
    requires FileBytes(files) + last.bytes <= MAX_PUBLIC_BYTES
    ensures forall i :: 0 <= i <= |files| ==> IntegerWithinLimits((files + [last])[i].bytes)
  {
    hide IntegerWithinLimits;
    var all := files + [last];
    forall i | 0 <= i < |all| ensures IntegerWithinLimits(all[i].bytes) {
      if i < |files| {
        OneFileAmongAll(files, i);
        assert all[i] == files[i];
      }
      SmallIntegers(all[i].bytes);
    }
  }

  lemma {:induction false} ChecksumsEncoding(draft: Draft, manifest: string, sha256: string -> string)
    ensures var checksums := Checksums(draft, manifest, sha256);
      && (Dumped(checksums) == Err(ResourceLimit) || Dumped(checksums) == Ok(TextOf(checksums)))
      && (FileBytes(draft.files) + Utf8Length(manifest) + Utf8Length(TextOf(checksums)) <= MAX_PUBLIC_BYTES
          ==> Dumped(checksums).Ok?)
  {
    hide SortKeys, Print, Refusal, RefusalInItems, SortItems, Utf8Length, Record, IntegerWithinLimits, Records;
    var file := ManifestFile(manifest, sha256);
    var all := draft.files + [file];
    var rows := Records(draft.files) + [Record(file)];
    assert Records(all) == rows by { hide Record; }
    RecordsRefusal(all);
    ChecksumsRefusal(rows);
    if FileBytes(draft.files) + Utf8Length(manifest) <= MAX_PUBLIC_BYTES { SmallFilesWithinLimits(draft.files, file); }
  }

  // ----- the loop -----

  datatype Payload = Payload(manifest: string, checksums: string, total: nat)

  /** The payload states its own size, and no smaller total would do. */
  ghost predicate StatesItsSize(p: Payload, draft: Draft, sha256: string -> string) {
    && p.manifest == TextOf(Manifest(draft, p.total))
    && p.checksums == TextOf(Checksums(draft, p.manifest, sha256))
    && p.total == FileBytes(draft.files) + Utf8Length(p.manifest) + Utf8Length(p.checksums)
    && p.total <= MAX_PUBLIC_BYTES
    && forall t: nat :: t < p.total ==> TotalOf(draft, sha256, t) != t
  }

  ghost predicate NoTotalWithinBound(draft: Draft, sha256: string -> string) {
    forall t: nat :: t <= MAX_PUBLIC_BYTES ==> TotalOf(draft, sha256, t) != t
  }

  lemma {:induction false} PassedEverySmaller(draft: Draft, sha256: string -> string, n: nat, t: nat)
    requires Holes(draft.template) == 1 && forall text :: IsDigest(sha256(text))
    requires t < Round(FixedBytes(draft), Utf8Length(TextOf(draft.template)), n)
    ensures TotalOf(draft, sha256, t) != t
  {
    hide Round, NextTotal, TotalOf, FixedBytes, TextOf, Utf8Length, Holes;
    TotalInClosedForm(draft, sha256, t);
    if TotalOf(draft, sha256, t) == t {
      RoundsStayBelow(FixedBytes(draft), Utf8Length(TextOf(draft.template)), n, t);
    }
  }

  lemma NextRound(draft: Draft, sha256: string -> string, n: nat)
    requires Holes(draft.template) == 1 && forall text :: IsDigest(sha256(text))
    ensures var fixed, base := FixedBytes(draft), Utf8Length(TextOf(draft.template));
      && TotalOf(draft, sha256, Round(fixed, base, n)) == Round(fixed, base, n + 1)
      && Round(fixed, base, 0) == 0
  {
    hide NextTotal, TotalOf, FixedBytes, TextOf, Utf8Length, Holes;
    TotalInClosedForm(draft, sha256, Round(FixedBytes(draft), Utf8Length(TextOf(draft.template)), n));
  }

  lemma {:induction false} NoneLeft(draft: Draft, sha256: string -> string, n: nat)
    requires Holes(draft.template) == 1 && forall text :: IsDigest(sha256(text))
    requires Round(FixedBytes(draft), Utf8Length(TextOf(draft.template)), n) > MAX_PUBLIC_BYTES
    ensures NoTotalWithinBound(draft, sha256)
  {
    hide Round, NextTotal, TotalOf, FixedBytes, TextOf, Utf8Length, Holes;
    forall t: nat | t <= MAX_PUBLIC_BYTES ensures TotalOf(draft, sha256, t) != t {
      PassedEverySmaller(draft, sha256, n, t);
    }
  }

  lemma {:induction false} Reached(draft: Draft, sha256: string -> string, n: nat, p: Payload)
    requires Holes(draft.template) == 1 && forall text :: IsDigest(sha256(text))
    requires p.total == Round(FixedBytes(draft), Utf8Length(TextOf(draft.template)), n) <= MAX_PUBLIC_BYTES
    requires p.manifest == TextOf(Manifest(draft, p.total))
    requires p.checksums == TextOf(Checksums(draft, p.manifest, sha256))
    requires p.total == FileBytes(draft.files) + Utf8Length(p.manifest) + Utf8Length(p.checksums)
    ensures StatesItsSize(p, draft, sha256)
  {
    hide Round, NextTotal, TotalOf, FixedBytes, TextOf, Utf8Length, Holes, FileBytes, Checksums, Manifest;
    forall t: nat | t < p.total ensures TotalOf(draft, sha256, t) != t {
      PassedEverySmaller(draft, sha256, n, t);
    }
  }

  lemma SettlesByFourth(draft: Draft, n: nat)
    requires var fixed, base := FixedBytes(draft), Utf8Length(TextOf(draft.template));
      n >= 3 && Round(fixed, base, 3) <= MAX_PUBLIC_BYTES
    ensures var fixed, base := FixedBytes(draft), Utf8Length(TextOf(draft.template));
      Round(fixed, base, 4) == Round(fixed, base, 3)
  {
    hide Utf8Length, TextOf, NextTotal, SumBytes, FileBytes, RecordFrame, Quote;
    SettledAfterThree(FixedBytes(draft), Utf8Length(TextOf(draft.template)));
  }

  /** The loop that settles the manifest's byte total, and the texts it then writes. */
  method SettleTotal(draft: Draft, sha256: string -> string) returns (r: Result<Payload, Fault>, rounds: nat)
    requires Holes(draft.template) == 1 && forall text :: IsDigest(sha256(text))
    ensures rounds <= 4
    ensures ManifestRefusal(draft).Some? ==> r == Err(ManifestRefusal(draft).value)
    ensures ManifestRefusal(draft).None? ==>
      match r
      case Ok(p) => StatesItsSize(p, draft, sha256)
      case Err(e) => e == ResourceLimit && NoTotalWithinBound(draft, sha256)
  {
    hide Round, NextTotal, FixedBytes, TextOf, Utf8Length, Holes, Dumped, Manifest, Checksums, FileBytes,
         ManifestRefusal,
         StatesItsSize, NoTotalWithinBound;
    ghost var fixed, base := FixedBytes(draft), Utf8Length(TextOf(draft.template));
    var total := 0;
    var settled := false;
    var attempt := 0;
    rounds := 0;
    NextRound(draft, sha256, 0);
    while attempt < ROUNDS
      invariant attempt == rounds <= 3 && !settled
      invariant total == Round(fixed, base, attempt) <= MAX_PUBLIC_BYTES
      invariant attempt > 0 ==> ManifestRefusal(draft).None?
    {
      rounds := rounds + 1;
      NextRound(draft, sha256, attempt);
      ManifestEncoding(draft, total);
      var manifest := Dumped(Manifest(draft, total));
      if manifest.Err? {
        if ManifestRefusal(draft).None? { NoneLeft(draft, sha256, attempt + 1); }
        return Err(manifest.error), rounds;
      }
      ChecksumsEncoding(draft, manifest.value, sha256);
      var checksums := Dumped(Checksums(draft, manifest.value, sha256));
      if checksums.Err? {
        NoneLeft(draft, sha256, attempt + 1);
        return Err(checksums.error), rounds;
      }
      var actual := FileBytes(draft.files) + Utf8Length(manifest.value) + Utf8Length(checksums.value);
      if actual > MAX_PUBLIC_BYTES {
        NoneLeft(draft, sha256, attempt + 1);
        return Err(ResourceLimit), rounds;
      }
      if attempt == 3 { SettlesByFourth(draft, attempt); }
      if total == actual {
        settled := true;
        break;
      }
      total := actual;
      attempt := attempt + 1;
    }
    if !settled { return Err(ValidationFault), rounds; }
    NextRound(draft, sha256, attempt);
    ManifestEncoding(draft, total);
    var manifest := Dumped(Manifest(draft, total)).value;
    ChecksumsEncoding(draft, manifest, sha256);
    var checksums := Dumped(Checksums(draft, manifest, sha256)).value;
    var actual := FileBytes(draft.files) + Utf8Length(manifest) + Utf8Length(checksums);
    if actual != total { return Err(ValidationFault), rounds; }
    var payload := Payload(manifest, checksums, total);
    Reached(draft, sha256, attempt, payload);
    r := Ok(payload);
  }
}
