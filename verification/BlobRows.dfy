/** Stored blob rows (crates/noxide-blobs/src/metadata.rs, `BlobRow::parse` and the columns the
    statements write). */
module BlobRows {
  import opened Prelude
  import Decimal
  import opened BlobState
  import opened BlobDatabase
  import opened BlobConservation
  import opened BlobLabels
  import opened BlobProtocol
  import opened BlobTheorems

  // ----- columns -----

  datatype Columns = Columns(
    slot: string, blob: string, handle: string, key: string, subject: string, context: string, input: string,
    anonymous: string, state: string, generation: string, reserved: string, bytes: string, digest: string, filename: string,
    created: string, expires: string, resource: string, id: string, incarnation: string, field: string, claimed: string,
    process: string)

  datatype Stored = Stored(row: Row, filename: string)

  /** How upload handles are spelled. A handle is a hash, here represented by what was hashed, so
      its text is left open. */
  datatype Spelling = Spelling(handle: Handle -> string, parseHandle: string -> Option<Handle>)

  /** Spelling and parsing handles are inverse. */
  ghost predicate Lossless(sp: Spelling) {
    && (forall h :: sp.parseHandle(sp.handle(h)) == Some(h))
    && (forall s :: sp.parseHandle(s).Some? ==> sp.handle(sp.parseHandle(s).value) == s)
  }

  function StateText(s: State): string {
    match s
    case Uploading => "uploading"
    case Staged => "staged"
    case Attached => "attached"
    case Unreferenced => "unreferenced"
    case Deleting => "deleting"
    case Deleted => "deleted"
  }

  function ParseState(s: string): Option<State> {
    if s == "uploading" then Some(Uploading)
    else if s == "staged" then Some(Staged)
    else if s == "attached" then Some(Attached)
    else if s == "unreferenced" then Some(Unreferenced)
    else if s == "deleting" then Some(Deleting)
    else if s == "deleted" then Some(Deleted)
    else None
  }

  lemma StatesReadBack(s: State)
    ensures ParseState(StateText(s)) == Some(s)
  {
    assert |"uploading"| == 9 && |"staged"| == 6 && |"attached"| == 8;
    assert |"unreferenced"| == 12 && |"deleting"| == 8 && |"deleted"| == 7;
    assert "attached"[0] != "deleting"[0];
  }

  lemma StatesSpellBack(s: string)
    ensures ParseState(s).Some? ==> StateText(ParseState(s).value) == s
  {
  }

  /** The contract's identifier grammar. */
  predicate Identifier(s: string) {
    && 0 < |s| <= 32 && 'a' <= s[0] <= 'z'
    && (forall i :: 0 <= i < |s| ==> 'a' <= s[i] <= 'z' || '0' <= s[i] <= '9' || s[i] == '_')
  }

  predicate InRange(n: int) {
    0 <= n <= I64_MAX
  }

  /** Identities of 32 bytes, times a column can hold, and an owner the manifest admits. */
  predicate Columnar(r: Row) {
    var m := r.metadata;
    && InRange(r.created) && InRange(r.claimed) && InRange(m.expires)
    && Fits(m.blob, 32) && Fits(m.key, 32) && Fits(r.process, 32)
    && Fits(m.binding.slot, 32) && Fits(m.binding.subject, 32) && Fits(m.binding.context, 32) && Fits(m.binding.input, 32)
    && (m.association.Some? ==>
          var a := m.association.value; a.resource <= I64_MAX && a.id <= I64_MAX && Identifier(a.field))
  }

  /** A row whose columns the decoder accepts: its values fit, it has its state's shape and the
      fixed upload lifetime. */
  predicate Storable(r: Row) {
    Columnar(r) && Shape(r.metadata) && Lifetime(r)
  }

  function NumberText(n: int): string {
    if n >= 0 then Decimal.Print(n) else "-" + Decimal.Print(-n)
  }

  function OwnerColumns(a: Option<Association>): (string, string, string, string) {
    match a
    case None => ("0", "0", "", "")
    case Some(a) => (NumberText(a.resource), NumberText(a.id), a.incarnation, a.field)
  }

  function DigestColumn(d: Option<Digest>): string {
    if d.None? then "" else HexOf(d.value)
  }

  /** `BlobRef`. */
  function BlobText(x: Id): string {
    "b1_" + TokenText(x)
  }

  function ParseBlob(s: string): Option<Id> {
    if |s| >= 3 && s[..3] == "b1_" then ParseToken(s[3..]) else None
  }

  function Encode(sp: Spelling, s: Stored): Columns {
    var r := s.row;
    var m := r.metadata;
    var (resource, id, incarnation, field) := OwnerColumns(m.association);
    Columns(
      TokenText(m.binding.slot), BlobText(m.blob), sp.handle(m.handle), TokenText(m.key),
      TokenText(m.binding.subject), TokenText(m.binding.context), TokenText(m.binding.input),
      if r.anonymous then "1" else "0", StateText(m.state), NumberText(m.generation),
      NumberText(m.reserved), NumberText(m.bytes), DigestColumn(m.digest), s.filename,
      NumberText(r.created), NumberText(m.expires), resource, id, incarnation, field,
      NumberText(r.claimed), TokenText(r.process))
  }

  // ----- decoding -----

  function ParseOwner(resource: string, id: string, incarnation: string, field: string): Result<Option<Association>> {
    var r, i := Decimal.Read(resource), Decimal.Read(id);
    if r.None? || i.None? then Err
    else if r.value == 0 && i.value == 0 && incarnation == "" && field == "" then Ok(None)
    else
      var a := Association(r.value, i.value, incarnation, field);
      if r.value > 0 && i.value > 0 && Identifier(field) && ValidAssociation(a) then Ok(Some(a)) else Err
  }

  function ParseDigest(text: string): Result<Option<Digest>> {
    if text == "" then Ok(None)
    else
      var bytes := Unhex(text);
      if bytes.None? then Err
      else
        PairsCount(text);
        Ok(Some(bytes.value))
  }

  function Need<T>(o: Option<T>): Result<T> {
    if o.Some? then Ok(o.value) else Err
  }

  function ParseBinding(c: Columns): Result<Binding> {
    var slot :- Need(ParseToken(c.slot));
    var subject :- Need(ParseToken(c.subject));
    var context :- Need(ParseToken(c.context));
    var input :- Need(ParseToken(c.input));
    Ok(Binding(slot, subject, context, input))
  }

  datatype Tokens = Tokens(blob: Id, handle: Handle, key: Id, binding: Binding)

  function ParseTokens(sp: Spelling, c: Columns): Result<Tokens> {
    var blob :- Need(ParseBlob(c.blob));
    var handle :- Need(sp.parseHandle(c.handle));
    var key :- Need(ParseToken(c.key));
    var binding :- ParseBinding(c);
    Ok(Tokens(blob, handle, key, binding))
  }

  datatype Numbers = Numbers(generation: nat, expires: nat, reserved: nat, bytes: nat)

  function ParseNumbers(c: Columns): Result<Numbers> {
    var generation :- Need(Decimal.Read(c.generation));
    var expires :- Need(Decimal.Read(c.expires));
    var reserved :- Need(Decimal.Read(c.reserved));
    var bytes :- Need(Decimal.Read(c.bytes));
    Ok(Numbers(generation, expires, reserved, bytes))
  }

  function ParseMetadata(sp: Spelling, c: Columns): Result<Metadata> {
    var tokens :- ParseTokens(sp, c);
    var state :- Need(ParseState(c.state));
    var numbers :- ParseNumbers(c);
    var digest :- ParseDigest(c.digest);
    var association :- ParseOwner(c.resource, c.id, c.incarnation, c.field);
    Ok(Metadata(tokens.blob, tokens.handle, tokens.key, tokens.binding, state,
                numbers.generation, numbers.expires, numbers.reserved, numbers.bytes, digest, association))
  }

  function ParseFlag(s: string): Option<bool> {
    if s == "0" then Some(false) else if s == "1" then Some(true) else None
  }

  /** `BlobRow::parse`: every column canonical, the lifetime fixed, the state's shape, the handle
      the one the object's facts give, and the label its own normal form. */
  function Decode(sp: Spelling, c: Columns): Result<Stored> {
    var m :- ParseMetadata(sp, c);
    var anonymous :- Need(ParseFlag(c.anonymous));
    var created :- Need(Decimal.Read(c.created));
    var claimed :- Need(Decimal.Read(c.claimed));
    var process :- Need(ParseToken(c.process));
    if created + STAGE_LIFETIME_MILLIS != m.expires || !Shape(m) || NormalName(c.filename) != Ok(c.filename) then Err
    else Ok(Stored(Row(m, anonymous, created, claimed, process), c.filename))
  }

  lemma NumbersReadBack(n: int)
    requires InRange(n)
    ensures Decimal.Read(NumberText(n)) == Some(n)
  {
    Decimal.ReadPrint(n);
  }

  lemma DigestReadsBack(d: Option<Digest>)
    ensures ParseDigest(DigestColumn(d)) == Ok(d)
  {
    if d.Some? {
      DigestTexts(HexOf(d.value), d.value);
    }
  }

  lemma BlobTexts(s: string, x: Id)
    ensures ParseBlob(s) == Some(x) <==> Fits(x, 32) && BlobText(x) == s
  {
    if |s| >= 3 {
      assert s == s[..3] + s[3..];
      TokenTexts(s[3..], x);
    }
    assert BlobText(x)[3..] == TokenText(x);
  }

  lemma OwnerReadsBack(a: Option<Association>)
    requires a.Some? ==>
      ValidAssociation(a.value) && a.value.resource <= I64_MAX && a.value.id <= I64_MAX && Identifier(a.value.field)
    ensures var (r, i, n, f) := OwnerColumns(a); ParseOwner(r, i, n, f) == Ok(a)
  {
    if a.Some? {
      NumbersReadBack(a.value.resource);
      NumbersReadBack(a.value.id);
    } else {
      Decimal.ReadPrint(0);
      assert Decimal.Print(0) == "0";
    }
  }

  lemma BindingReadsBack(sp: Spelling, s: Stored)
    requires Storable(s.row)
    ensures ParseBinding(Encode(sp, s)) == Ok(s.row.metadata.binding)
  {
    var b := s.row.metadata.binding;
    TokenTexts(TokenText(b.slot), b.slot);
    TokenTexts(TokenText(b.subject), b.subject);
    TokenTexts(TokenText(b.context), b.context);
    TokenTexts(TokenText(b.input), b.input);
  }

  lemma MetadataReadsBack(sp: Spelling, s: Stored)
    requires Lossless(sp) && Storable(s.row)
    ensures ParseMetadata(sp, Encode(sp, s)) == Ok(s.row.metadata)
  {
    var m := s.row.metadata;
    StatesReadBack(m.state);
    NumbersReadBack(m.generation);
    NumbersReadBack(m.expires);
    NumbersReadBack(m.reserved);
    NumbersReadBack(m.bytes);
    DigestReadsBack(m.digest);
    OwnerReadsBack(m.association);
    BlobTexts(BlobText(m.blob), m.blob);
    TokenTexts(TokenText(m.key), m.key);
    BindingReadsBack(sp, s);
    assert ParseTokens(sp, Encode(sp, s)) == Ok(Tokens(m.blob, m.handle, m.key, m.binding));
    assert ParseNumbers(Encode(sp, s)) == Ok(Numbers(m.generation, m.expires, m.reserved, m.bytes));
  }

  lemma StorableReadsBack(sp: Spelling, s: Stored)
    requires Lossless(sp) && Storable(s.row) && IsLabel(s.filename)
    ensures Decode(sp, Encode(sp, s)) == Ok(s)
  {
    MetadataReadsBack(sp, s);
    NumbersReadBack(s.row.created);
    NumbersReadBack(s.row.claimed);
    TokenTexts(TokenText(s.row.process), s.row.process);
    LabelIsNormal(s.filename);
  }

  lemma OwnerSpellsBack(resource: string, id: string, incarnation: string, field: string)
    ensures var a := ParseOwner(resource, id, incarnation, field);
            a.Ok? ==> OwnerColumns(a.value) == (resource, id, incarnation, field)
  {
    assert Decimal.Print(0) == "0";
  }

  lemma DigestSpellsBack(text: string)
    ensures ParseDigest(text).Ok? ==> DigestColumn(ParseDigest(text).value) == text
  {
    if ParseDigest(text).Ok? && text != "" {
      PairsSpell(text);
    }
  }

  lemma BindingSpellsBack(c: Columns, b: Binding)
    requires ParseBinding(c) == Ok(b)
    ensures TokenText(b.slot) == c.slot && TokenText(b.subject) == c.subject
    ensures TokenText(b.context) == c.context && TokenText(b.input) == c.input
    ensures Fits(b.slot, 32) && Fits(b.subject, 32) && Fits(b.context, 32) && Fits(b.input, 32)
  {
    TokenTexts(c.slot, b.slot);
    TokenTexts(c.subject, b.subject);
    TokenTexts(c.context, b.context);
    TokenTexts(c.input, b.input);
  }

  lemma TokensSpellBack(sp: Spelling, c: Columns, k: Tokens)
    requires Lossless(sp) && ParseTokens(sp, c) == Ok(k)
    ensures BlobText(k.blob) == c.blob && sp.handle(k.handle) == c.handle && TokenText(k.key) == c.key
    ensures Fits(k.blob, 32) && Fits(k.key, 32) && ParseBinding(c) == Ok(k.binding)
  {
    BlobTexts(c.blob, k.blob);
    TokenTexts(c.key, k.key);
  }

  lemma NumbersSpellBack(c: Columns, n: Numbers)
    requires ParseNumbers(c) == Ok(n)
    ensures NumberText(n.generation) == c.generation && NumberText(n.expires) == c.expires
    ensures NumberText(n.reserved) == c.reserved && NumberText(n.bytes) == c.bytes && InRange(n.expires)
  {
  }

  lemma OwnerFits(c: Columns, a: Association)
    requires ParseOwner(c.resource, c.id, c.incarnation, c.field) == Ok(Some(a))
    ensures a.resource <= I64_MAX && a.id <= I64_MAX && Identifier(a.field)
  {
  }

  lemma MetadataSpellsBack(sp: Spelling, c: Columns, m: Metadata)
    requires Lossless(sp) && ParseMetadata(sp, c) == Ok(m)
    ensures BlobText(m.blob) == c.blob && sp.handle(m.handle) == c.handle && TokenText(m.key) == c.key
    ensures Fits(m.blob, 32) && Fits(m.key, 32) && ParseBinding(c) == Ok(m.binding)
    ensures StateText(m.state) == c.state && NumberText(m.generation) == c.generation && NumberText(m.expires) == c.expires
    ensures NumberText(m.reserved) == c.reserved && NumberText(m.bytes) == c.bytes && InRange(m.expires)
    ensures DigestColumn(m.digest) == c.digest && OwnerColumns(m.association) == (c.resource, c.id, c.incarnation, c.field)
    ensures m.association.Some? ==>
      m.association.value.resource <= I64_MAX && m.association.value.id <= I64_MAX && Identifier(m.association.value.field)
  {
    TokensSpellBack(sp, c, ParseTokens(sp, c).value);
    NumbersSpellBack(c, ParseNumbers(c).value);
    StatesSpellBack(c.state);
    DigestSpellsBack(c.digest);
    OwnerSpellsBack(c.resource, c.id, c.incarnation, c.field);
    if m.association.Some? {
      OwnerFits(c, m.association.value);
    }
  }

  /** What the decoder read and checked. */
  lemma DecodedParts(sp: Spelling, c: Columns, s: Stored)
    requires Decode(sp, c) == Ok(s)
    ensures ParseMetadata(sp, c) == Ok(s.row.metadata) && ParseFlag(c.anonymous) == Some(s.row.anonymous)
    ensures Decimal.Read(c.created) == Some(s.row.created) && Decimal.Read(c.claimed) == Some(s.row.claimed)
    ensures ParseToken(c.process) == Some(s.row.process) && NormalName(c.filename) == Ok(c.filename) && s.filename == c.filename
    ensures Shape(s.row.metadata) && Lifetime(s.row)
  {
  }

  /** The decoder accepts nothing else: whatever it accepts is a storable row, and the columns are
      the ones that row is written as. */
  lemma OnlyStoredRowsDecode(sp: Spelling, c: Columns)
    requires Lossless(sp) && Decode(sp, c).Ok?
    ensures var s := Decode(sp, c).value; Storable(s.row) && IsLabel(s.filename) && Encode(sp, s) == c
  {
    var s := Decode(sp, c).value;
    DecodedParts(sp, c, s);
    MetadataSpellsBack(sp, c, s.row.metadata);
    BindingSpellsBack(c, s.row.metadata.binding);
    TokenTexts(c.process, s.row.process);
    NormalNameIsLabel(c.filename);
    assert Columnar(s.row);
  }

  /** A row is recovered exactly from its columns if and only if it is storable, under a name that
      is its own label. */
  lemma RowsReadBack(sp: Spelling, s: Stored)
    requires Lossless(sp)
    ensures Decode(sp, Encode(sp, s)) == Ok(s) <==> Storable(s.row) && IsLabel(s.filename)
  {
    if Storable(s.row) && IsLabel(s.filename) {
      StorableReadsBack(sp, s);
    }
    if Decode(sp, Encode(sp, s)) == Ok(s) {
      OnlyStoredRowsDecode(sp, Encode(sp, s));
    }
  }

  /** Every row of every reachable state of the blob lifecycle, stored under a normalized name, is
      recovered exactly from its columns if and only if its values fit them. */
  lemma ReachableRowsReadBack(sp: Spelling, sys: Sys, k: Id, filename: string)
    requires Lossless(sp) && Reachable(sys) && k in sys.db.rows && NormalName(filename).Ok?
    ensures var s := Stored(sys.db.rows[k], NormalName(filename).value);
            Decode(sp, Encode(sp, s)) == Ok(s) <==> Columnar(s.row)
  {
    CountersAreSums(sys);
    LifetimesAreFixed(sys, k);
    NormalNameIsLabel(filename);
    RowsReadBack(sp, Stored(sys.db.rows[k], NormalName(filename).value));
  }

  // ----- a lossless spelling -----

  /** A text for every handle: its parts in order. */
  function HandleText(h: Handle): string {
    match h
    case Provisional(token) => "p" + Decimal.Print(token)
    case Finalized(slot, key, blob, bytes, digest) =>
      "f" + Field(slot, Field(key, Field(blob, Field(bytes, HexOf(digest)))))
  }

  function Field(n: nat, rest: string): string {
    Decimal.Print(n) + "," + rest
  }

  lemma CommaAfter(x: string, s: string, y: string, t: string)
    requires Decimal.Digits(x) && Decimal.Digits(y) && x + "," + s == y + "," + t
    ensures |y| <= |x|
  {
    var text := x + "," + s;
    assert text[|x|] == ',';
    assert forall i :: 0 <= i < |y| ==> (y + "," + t)[i] == y[i];
  }

  lemma FieldsDiffer(a: nat, s: string, b: nat, t: string)
    requires Field(a, s) == Field(b, t)
    ensures a == b && s == t
  {
    var x, y := Decimal.Print(a), Decimal.Print(b);
    CommaAfter(x, s, y, t);
    CommaAfter(y, t, x, s);
    assert Field(a, s)[..|x|] == x && Field(b, t)[..|y|] == y;
    assert Field(a, s)[|x| + 1..] == s && Field(b, t)[|y| + 1..] == t;
    Decimal.ValueOfPrint(a);
    Decimal.ValueOfPrint(b);
  }

  lemma HandlesDiffer(g: Handle, h: Handle)
    requires HandleText(g) == HandleText(h)
    ensures g == h
  {
    assert HandleText(g)[0] == HandleText(h)[0];
    assert HandleText(g)[1..] == HandleText(h)[1..];
    if g.Provisional? {
      Decimal.ValueOfPrint(g.token);
      Decimal.ValueOfPrint(h.token);
    } else {
      var gs, hs := HexOf(g.digest), HexOf(h.digest);
      FieldsDiffer(g.slot, Field(g.key, Field(g.blob, Field(g.bytes, gs))), h.slot, Field(h.key, Field(h.blob, Field(h.bytes, hs))));
      FieldsDiffer(g.key, Field(g.blob, Field(g.bytes, gs)), h.key, Field(h.blob, Field(h.bytes, hs)));
      FieldsDiffer(g.blob, Field(g.bytes, gs), h.blob, Field(h.bytes, hs));
      FieldsDiffer(g.bytes, gs, h.bytes, hs);
      PairsRead(g.digest);
      PairsRead(h.digest);
    }
  }

  ghost function HandleOf(s: string): Option<Handle> {
    if exists h: Handle :: HandleText(h) == s then var h: Handle :| HandleText(h) == s; Some(h) else None
  }

  /** Handles can be spelled losslessly. */
  lemma LosslessSpelling()
    ensures exists sp :: Lossless(sp)
  {
    ghost var sp := Spelling(h => HandleText(h), s => HandleOf(s));
    forall h: Handle
      ensures sp.parseHandle(sp.handle(h)) == Some(h)
    {
      HandlesDiffer(HandleOf(HandleText(h)).value, h);
    }
    assert Lossless(sp);
  }
}
