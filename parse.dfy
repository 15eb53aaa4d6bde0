/**
 * The mapping from GLEIF LEI records to graph entities: identifier
 * derivation, date truncation, namespace removal, and the loop that turns each
 * LEIRecord into a Company (and, when it names a successor, a Succession).
 */
module Parse {
  import opened Wrappers
  import opened Xml
  import opened Entities

  // ---------------------------------------------------------------------------
  // Identifiers

  /** The Company id of an LEI: `lei_id`. */
  function LeiId(lei: string): (id: string)
    ensures |id| == |lei| + 4
    ensures LeiOf(id) == Some(lei)
  {
    "lei-" + lei
  }

  /** The LEI a Company id was derived from, if it has the Company-id form. */
  function LeiOf(id: string): Option<string> {
    if |id| >= 4 && id[..4] == "lei-" then Some(id[4..]) else None
  }

  /** Distinct LEIs give distinct Company ids. */
  lemma LeiIdInjective(a: string, b: string)
    ensures LeiId(a) == LeiId(b) ==> a == b
  {
    if LeiId(a) == LeiId(b) {
      assert Some(a) == LeiOf(LeiId(a)) == LeiOf(LeiId(b)) == Some(b);
    }
  }

  /** What an f-string prints for an optional string: the string, or "None". */
  function Str(o: Option<string>): string {
    match o
    case Some(s) => s
    case None => "None"
  }

  // ---------------------------------------------------------------------------
  // Dates

  /** `s.split(sep)[0]`: the part of `s` before the first `sep`, or all of `s` when there is none. */
  function BeforeFirst(s: string, sep: char): (r: string)
    ensures r <= s
    ensures sep !in r
    ensures |r| < |s| ==> s[|r|] == sep
    ensures sep !in s ==> r == s
  {
    if s == [] || s[0] == sep then []
    else [s[0]] + BeforeFirst(s[1..], sep)
  }

  /** `parse_date`: absent stays absent; otherwise the date part before the first "T". */
  function ParseDate(text: Option<string>): (r: Option<string>)
    ensures r.None? <==> text.None?
    ensures text.Some? ==> r.value <= text.value && 'T' !in r.value
    ensures text.Some? && |r.value| < |text.value| ==> text.value[|r.value|] == 'T'
  {
    match text
    case None => None
    case Some(s) => Some(BeforeFirst(s, 'T'))
  }

  /** The date prefix is determined by its properties: a prefix with no "T", followed by "T" or the end. */
  lemma {:induction false} BeforeFirstUnique(s: string, sep: char, p: string)
    requires p <= s && sep !in p && (|p| < |s| ==> s[|p|] == sep)
    ensures p == BeforeFirst(s, sep)
    decreases s
  {
    if s != [] && s[0] != sep {
      assert p != [];
      assert p[0] == s[0];
      assert p[1..] <= s[1..];
      BeforeFirstUnique(s[1..], sep, p[1..]);
      assert p == [p[0]] + p[1..];
    }
  }

  /** Truncating a truncated date changes nothing. */
  lemma ParseDateIdempotent(text: Option<string>)
    ensures ParseDate(ParseDate(text)) == ParseDate(text)
  {
  }

  /** A GLEIF timestamp keeps its date part. */
  lemma ParseDateExample()
    ensures ParseDate(Some("2022-05-18T00:00:00Z")) == Some("2022-05-18")
  {
    var s := "2022-05-18T00:00:00Z";
    BeforeFirstUnique(s, 'T', "2022-05-18");
  }

  // ---------------------------------------------------------------------------
  // Namespace removal

  /** `remove_namespace`: rewrites, in place, every tag of the tree to its local name. */
  method RemoveNamespace(el: ElementTree)
    requires el.Valid()
    modifies el.tags
    ensures el.Valid()
    ensures forall k :: 0 <= k < el.tags.Length ==> el.tags[k] == Local(old(el.tags[k]))
    ensures el.Value() == Strip(old(el.Value()))
  {
    for i := 0 to el.tags.Length
      invariant forall k :: 0 <= k < i ==> el.tags[k] == Local(old(el.tags[k]))
      invariant forall k :: i <= k < el.tags.Length ==> el.tags[k] == old(el.tags[k])
    {
      el.tags[i] := Local(el.tags[i]);
    }
    assert el.tags[..] == LocalTags(old(el.tags[..]));
    BuildStrip(old(el.tags[..]), el.texts, el.kids, 0);
  }

  // ---------------------------------------------------------------------------
  // One record

  /** The children the mapping dereferences without checking: Entity, Registration, and Entity's RegistrationAuthority and LegalForm. */
  predicate HasRequiredParts(elc: Element) {
    && Find(elc, "Entity").Some?
    && Find(elc, "Registration").Some?
    && Find(Find(elc, "Entity").value, "RegistrationAuthority").Some?
    && Find(Find(elc, "Entity").value, "LegalForm").Some?
  }

  /** The Company built from a namespace-free LEIRecord by successive `add` calls. */
  function CompanyOf(elc: Element): Entity
    requires HasRequiredParts(elc)
  {
    var lei := FindText(elc, "LEI");
    var proxy := MakeEntity("Company", LeiId(Str(lei)));
    AddAll(proxy, CompanyFieldList(elc))
  }

  /** The `add` calls made on a record's Company, in the order they are made. */
  function CompanyFieldList(elc: Element): seq<Field>
    requires HasRequiredParts(elc)
  {
    var entity := Find(elc, "Entity").value;
    var authority := Find(entity, "RegistrationAuthority").value;
    var legalForm := Find(entity, "LegalForm").value;
    var registration := Find(elc, "Registration").value;
    [ ("name", FindText(entity, "LegalName")),
      ("jurisdiction", FindText(entity, "LegalJurisdiction")),
      ("status", FindText(entity, "EntityStatus")),
      ("incorporationDate", ParseDate(FindText(entity, "EntityCreationDate"))),
      ("registrationNumber", FindText(authority, "RegistrationAuthorityEntityID")),
      ("legalForm", FindText(legalForm, "OtherLegalForm")),
      ("modifiedAt", ParseDate(FindText(registration, "LastUpdateDate"))) ]
  }

  /** The properties a Company can get. */
  const CompanyProperties: set<string> :=
    {"name", "jurisdiction", "status", "incorporationDate", "registrationNumber", "legalForm", "modifiedAt"}

  /**
   * The Company of a record has id `lei_id(LEI)` (with "None" printed for a
   * missing LEI), each of its properties holds exactly the value of its source
   * field when that field is present, and it has no other properties.
   */
  lemma CompanyFields(elc: Element)
    requires HasRequiredParts(elc)
    ensures var c := CompanyOf(elc);
      var entity := Find(elc, "Entity").value;
      && c.schema == "Company"
      && c.id == LeiId(Str(FindText(elc, "LEI")))
      && Values(c, "name") == OptList(FindText(entity, "LegalName"))
      && Values(c, "jurisdiction") == OptList(FindText(entity, "LegalJurisdiction"))
      && Values(c, "status") == OptList(FindText(entity, "EntityStatus"))
      && Values(c, "incorporationDate") == OptList(ParseDate(FindText(entity, "EntityCreationDate")))
      && Values(c, "registrationNumber") ==
         OptList(FindText(Find(entity, "RegistrationAuthority").value, "RegistrationAuthorityEntityID"))
      && Values(c, "legalForm") == OptList(FindText(Find(entity, "LegalForm").value, "OtherLegalForm"))
      && Values(c, "modifiedAt") == OptList(ParseDate(FindText(Find(elc, "Registration").value, "LastUpdateDate")))
      && c.props.Keys <= CompanyProperties
  {
    var fields := CompanyFieldList(elc);
    var p0 := MakeEntity("Company", LeiId(Str(FindText(elc, "LEI"))));
    assert FreshNames(p0, fields) by {
      forall i, j | 0 <= i < j < |fields|
        ensures fields[i].0 != fields[j].0
      {
        assert fields[i].0[0] != fields[j].0[0];
      }
    }
    AddAllOther(p0, fields, "");
    AddAllNamed(p0, fields, 0);
    AddAllNamed(p0, fields, 1);
    AddAllNamed(p0, fields, 2);
    AddAllNamed(p0, fields, 3);
    AddAllNamed(p0, fields, 4);
    AddAllNamed(p0, fields, 5);
    AddAllNamed(p0, fields, 6);
    CompanyKeys(elc);
  }

  /** A Company gets no property outside the fixed list. */
  lemma CompanyKeys(elc: Element)
    requires HasRequiredParts(elc)
    ensures CompanyOf(elc).props.Keys <= CompanyProperties
  {
    var fields := CompanyFieldList(elc);
    var p0 := MakeEntity("Company", LeiId(Str(FindText(elc, "LEI"))));
    AddAllKeys(p0, fields);
    forall x | x in set k | 0 <= k < |fields| :: fields[k].0
      ensures x in CompanyProperties
    {
      var k :| 0 <= k < |fields| && fields[k].0 == x;
      assert k in {0, 1, 2, 3, 4, 5, 6};
    }
  }

  /** The Succession a record yields, when it has a SuccessorEntity. */
  function SuccessionOf(elc: Element): Option<Entity> {
    match Find(elc, "SuccessorEntity")
    case None => None
    case Some(successor) =>
      var lei := FindText(elc, "LEI");
      var succLei := FindText(successor, "SuccessorLEI");
      var s0 := MakeEntity("Succession", "succession-" + Str(lei) + "-" + Str(succLei));
      var s1 := Add(s0, "predecessor", lei);
      Some(Add(s1, "successor", Some(LeiId(Str(succLei)))))
  }

  /**
   * A Succession exists exactly when SuccessorEntity is present; its id is
   * "succession-" + LEI + "-" + successor LEI, its predecessor is the raw LEI
   * and its successor the successor's Company id.
   */
  lemma SuccessionFields(elc: Element)
    ensures SuccessionOf(elc).Some? <==> Find(elc, "SuccessorEntity").Some?
    ensures SuccessionOf(elc).Some? ==>
      var s := SuccessionOf(elc).value;
      var succLei := FindText(Find(elc, "SuccessorEntity").value, "SuccessorLEI");
      && s.schema == "Succession"
      && s.id == "succession-" + Str(FindText(elc, "LEI")) + "-" + Str(succLei)
      && Values(s, "predecessor") == OptList(FindText(elc, "LEI"))
      && Values(s, "successor") == [LeiId(Str(succLei))]
      && s.props.Keys <= {"predecessor", "successor"}
  {
  }

  // ---------------------------------------------------------------------------
  // The file loop

  /** A record the loop maps without failing: once namespaces are gone, it has the children that are dereferenced. */
  predicate Mappable(el: Element) {
    HasRequiredParts(Strip(el))
  }

  /** The record names a successor entity. */
  predicate HasSuccessor(el: Element) {
    Find(Strip(el), "SuccessorEntity").Some?
  }

  /** The Succession, if any, as a sequence of at most one entity. */
  function OptSeq(o: Option<Entity>): seq<Entity> {
    match o
    case None => []
    case Some(x) => [x]
  }

  /** What the loop puts for a namespace-free LEIRecord: its Succession, if any, then its Company. */
  function MapRecord(elc: Element): seq<Entity>
    requires HasRequiredParts(elc)
  {
    OptSeq(SuccessionOf(elc)) + [CompanyOf(elc)]
  }

  /** What the loop puts for one LEIRecord as read from the file. */
  function RecordOutput(el: Element): seq<Entity>
    requires Mappable(el)
  {
    MapRecord(Strip(el))
  }

  /**
   * A record yields its Company last, preceded by exactly one Succession when
   * it names a successor and by nothing otherwise.
   */
  lemma RecordOutputShape(el: Element)
    requires Mappable(el)
    ensures |RecordOutput(el)| == if HasSuccessor(el) then 2 else 1
    ensures RecordOutput(el)[|RecordOutput(el)| - 1] == CompanyOf(Strip(el))
    ensures RecordOutput(el)[|RecordOutput(el)| - 1].schema == "Company"
    ensures HasSuccessor(el) ==> RecordOutput(el)[0].schema == "Succession"
    ensures HasSuccessor(el) ==> RecordOutput(el)[0] == SuccessionOf(Strip(el)).value
  {
    SuccessionFields(Strip(el));
    CompanyFields(Strip(el));
  }

  /** Every record of the sequence can be mapped. */
  predicate AllMappable(records: seq<Element>) {
    forall k {:trigger Mappable(records[k])} :: 0 <= k < |records| ==> Mappable(records[k])
  }

  /** A record of a mappable sequence can be mapped on its own. */
  lemma AllMappableAt(records: seq<Element>, i: nat)
    requires AllMappable(records) && i < |records|
    ensures AllMappable([records[i]])
  {
    assert [records[i]][0] == records[i];
  }

  /**
   * `outs` holds each record's output, in record order. The outputs are
   * named only under the quantifier, so that a caller that merely passes
   * them along does not unfold the mapping.
   */
  predicate OutputsOf(records: seq<Element>, outs: seq<seq<Entity>>) {
    && AllMappable(records)
    && |outs| == |records|
    && forall k {:trigger RecordOutput(records[k])} :: 0 <= k < |records| ==> outs[k] == RecordOutput(records[k])
  }

  /** For a single record, `OutputsOf` says that `out` is what that record yields. */
  lemma OutputsOfOne(el: Element, out: seq<Entity>)
    ensures OutputsOf([el], [out]) <==> Mappable(el) && out == RecordOutput(el)
  {
    assert [el][0] == el && [out][0] == out;
  }

  /** One more record, one more output. */
  lemma OutputsOfSnoc(records: seq<Element>, outs: seq<seq<Entity>>, el: Element, out: seq<Entity>)
    requires OutputsOf(records, outs) && OutputsOf([el], [out])
    ensures OutputsOf(records + [el], outs + [out])
  {
    var rs := records + [el];
    var os := outs + [out];
    OutputsOfOne(el, out);
    forall k | 0 <= k < |rs|
      ensures os[k] == RecordOutput(rs[k])
    {
      if k < |outs| {
        assert os[k] == outs[k] && rs[k] == records[k];
      }
    }
  }

  /** The outputs of a sequence of records are determined by the records. */
  lemma OutputsUnique(records: seq<Element>, a: seq<seq<Entity>>, b: seq<seq<Entity>>)
    requires OutputsOf(records, a) && OutputsOf(records, b)
    ensures a == b
  {
    forall k | 0 <= k < |records|
      ensures a[k] == b[k]
    {
      assert a[k] == RecordOutput(records[k]);
    }
  }

  /** The outputs of the first `n` records are the first `n` outputs. */
  lemma OutputsOfPrefix(records: seq<Element>, outs: seq<seq<Entity>>, n: nat)
    requires OutputsOf(records, outs) && n <= |records|
    ensures OutputsOf(records[..n], outs[..n])
  {
    var rs := records[..n];
    forall k | 0 <= k < |rs|
      ensures outs[..n][k] == RecordOutput(rs[k])
    {
      assert rs[k] == records[k];
    }
  }

  /** The sequences of `ss`, joined end to end in order. */
  function Concat<E>(ss: seq<seq<E>>): seq<E> {
    if ss == [] then []
    else Concat(ss[..|ss| - 1]) + ss[|ss| - 1]
  }

  /** Joining one more sequence appends it. */
  lemma ConcatSnoc<E>(ss: seq<seq<E>>, s: seq<E>)
    ensures Concat(ss + [s]) == Concat(ss) + s
  {
    assert (ss + [s])[..|ss|] == ss;
  }

  /** Sequence `k` sits, contiguously, right after those before it. */
  lemma {:induction false} ConcatBlock<E>(ss: seq<seq<E>>, k: nat)
    requires k < |ss|
    ensures Concat(ss[..k]) + ss[k] <= Concat(ss)
    decreases |ss|
  {
    var init := ss[..|ss| - 1];
    assert Concat(ss) == Concat(init) + ss[|ss| - 1];
    if k < |ss| - 1 {
      ConcatBlock(init, k);
      assert init[..k] == ss[..k] && init[k] == ss[k];
    } else {
      assert init == ss[..k];
    }
  }

  /** How many of the records name a successor entity. */
  function SuccessorCount(records: seq<Element>): nat {
    if records == [] then 0
    else SuccessorCount(records[..|records| - 1]) + (if HasSuccessor(records[|records| - 1]) then 1 else 0)
  }

  /** One entity per record, plus one per record that names a successor. */
  lemma {:induction false} EmittedLength(records: seq<Element>, outs: seq<seq<Entity>>)
    requires OutputsOf(records, outs)
    ensures |Concat(outs)| == |records| + SuccessorCount(records)
    decreases |records|
  {
    if records != [] {
      var n := |records| - 1;
      OutputsOfPrefix(records, outs, n);
      EmittedLength(records[..n], outs[..n]);
      assert outs[n] == RecordOutput(records[n]);
      RecordOutputShape(records[n]);
    }
  }

  /**
   * Record `k`'s output sits, contiguously, right after everything put for
   * the records before it.
   */
  lemma EmittedBlock(records: seq<Element>, outs: seq<seq<Entity>>, k: nat)
    requires OutputsOf(records, outs) && k < |records|
    ensures OutputsOf(records[..k], outs[..k])
    ensures Concat(outs[..k]) + RecordOutput(records[k]) <= Concat(outs)
  {
    OutputsOfPrefix(records, outs, k);
    ConcatBlock(outs, k);
    assert outs[k] == RecordOutput(records[k]);
  }

  /**
   * When record `k` names a successor, its Succession is put immediately
   * before its Company, right after everything put for the earlier records.
   */
  lemma SuccessionBeforeCompany(records: seq<Element>, outs: seq<seq<Entity>>, k: nat)
    requires OutputsOf(records, outs) && k < |records| && HasSuccessor(records[k])
    ensures var p := |Concat(outs[..k])|;
      && Mappable(records[k])
      && p + 1 < |Concat(outs)|
      && Concat(outs)[p] == SuccessionOf(Strip(records[k])).value
      && Concat(outs)[p + 1] == CompanyOf(Strip(records[k]))
  {
    EmittedBlock(records, outs, k);
    RecordOutputShape(records[k]);
    var p := |Concat(outs[..k])|;
    var block := Concat(outs[..k]) + RecordOutput(records[k]);
    assert block[p] == RecordOutput(records[k])[0] && block[p + 1] == RecordOutput(records[k])[1];
  }

  /** The Company entities of an output, in order. */
  function Companies(out: seq<Entity>): seq<Entity> {
    if out == [] then []
    else Companies(out[..|out| - 1]) + (if out[|out| - 1].schema == "Company" then [out[|out| - 1]] else [])
  }

  lemma {:induction false} CompaniesAppend(a: seq<Entity>, b: seq<Entity>)
    ensures Companies(a + b) == Companies(a) + Companies(b)
    decreases |b|
  {
    if b == [] {
      assert a + b == a;
    } else {
      assert (a + b)[..|a + b| - 1] == a + b[..|b| - 1];
      CompaniesAppend(a, b[..|b| - 1]);
    }
  }

  /** The only Company a record puts is its own. */
  lemma CompaniesOfRecord(el: Element)
    requires Mappable(el)
    ensures Companies(RecordOutput(el)) == [CompanyOf(Strip(el))]
  {
    var out := RecordOutput(el);
    RecordOutputShape(el);
    if HasSuccessor(el) {
      assert out == [out[0]] + [out[1]];
      CompaniesAppend([out[0]], [out[1]]);
      assert [out[0]][..0] == [];
      assert [out[1]][..0] == [];
    } else {
      assert out[..0] == [];
    }
  }

  /** When sequence `k` holds exactly one Company, `cs[k]`, the Companies of the joined sequence are `cs`. */
  lemma {:induction false} CompaniesOfConcat(ss: seq<seq<Entity>>, cs: seq<Entity>)
    requires |cs| == |ss|
    requires forall k :: 0 <= k < |ss| ==> Companies(ss[k]) == [cs[k]]
    ensures Companies(Concat(ss)) == cs
    decreases |ss|
  {
    if ss != [] {
      var n := |ss| - 1;
      assert forall k :: 0 <= k < n ==> ss[..n][k] == ss[k];
      CompaniesOfConcat(ss[..n], cs[..n]);
      CompaniesAppend(Concat(ss[..n]), ss[n]);
      assert cs == cs[..n] + [cs[n]];
    }
  }

  /** The Companies the loop puts are one per record, each the Company of that record, in record order. */
  lemma CompaniesInOrder(records: seq<Element>, outs: seq<seq<Entity>>)
    requires OutputsOf(records, outs)
    ensures |Companies(Concat(outs))| == |records|
    ensures forall k :: 0 <= k < |records| ==>
      Mappable(records[k]) && Companies(Concat(outs))[k] == CompanyOf(Strip(records[k]))
  {
    var cs := seq(|records|, k requires 0 <= k < |records| && Mappable(records[k]) => CompanyOf(Strip(records[k])));
    forall k | 0 <= k < |outs|
      ensures Companies(outs[k]) == [cs[k]]
    {
      assert outs[k] == RecordOutput(records[k]);
      CompaniesOfRecord(records[k]);
    }
    CompaniesOfConcat(outs, cs);
  }

  /** What a mappable record yields is its output. */
  lemma OutputsOfMapped(el: Element)
    requires Mappable(el)
    ensures OutputsOf([el], [MapRecord(Strip(el))])
  {
    OutputsOfOne(el, MapRecord(Strip(el)));
  }

  /**
   * The rest of the loop body, once the record `el` holds is namespace-free:
   * builds its Company, puts its Succession, if any, clears the element and
   * puts the Company.
   */
  method PutEntities(el: ElementTree, bulk: Bulk)
    requires el.Valid() && HasRequiredParts(el.Value())
    modifies el, bulk
    ensures el.Valid() && el.Value() == Element(old(el.Value()).tag, None, [])
    ensures bulk.entities == old(bulk.entities) + MapRecord(old(el.Value()))
  {
    var elc := el.Value();
    var proxy := CompanyOf(elc);
    var successor := Find(elc, "SuccessorEntity");
    if successor.Some? {
      var succession := SuccessionOf(elc).value;
      bulk.Put(succession);
    }
    el.Clear();
    bulk.Put(proxy);
  }

  /**
   * The body of the `parse_lei_file` loop for one LEIRecord, `raw` being its
   * value as read: strips its namespaces in place, then puts its entities and
   * clears it. What is put is the record's output, and the element is left
   * with its local tag only.
   */
  method PutRecord(el: ElementTree, bulk: Bulk, ghost raw: Element) returns (ghost out: seq<Entity>)
    requires el.Valid() && el.Value() == raw && AllMappable([raw])
    modifies el, el.tags, bulk
    ensures el.Valid() && el.Value() == Element(Local(raw.tag), None, [])
    ensures bulk.entities == old(bulk.entities) + out
    ensures OutputsOf([raw], [out])
  {
    assert Mappable([raw][0]);
    RemoveNamespace(el);
    PutEntities(el, bulk);
    out := MapRecord(Strip(raw));
    OutputsOfMapped(raw);
  }

  /**
   * `parse_lei_file`: maps each LEIRecord in turn, `before` being the records'
   * values as read. The sink only grows: what it held before is kept,
   * followed by every record's output in record order, and every record is
   * left cleared, with its local tag only.
   */
  method ParseLeiFile(records: seq<ElementTree>, bulk: Bulk, ghost before: seq<Element>) returns (ghost outs: seq<seq<Entity>>)
    requires forall k :: 0 <= k < |records| ==> records[k].Valid()
    requires forall a, b :: 0 <= a < b < |records| ==> records[a] != records[b] && records[a].tags != records[b].tags
    requires |before| == |records| && forall k :: 0 <= k < |records| ==> records[k].Value() == before[k]
    requires AllMappable(before)
    modifies bulk, set k | 0 <= k < |records| :: records[k], set k | 0 <= k < |records| :: records[k].tags
    ensures OutputsOf(before, outs)
    ensures bulk.entities == old(bulk.entities) + Concat(outs)
    ensures forall k :: 0 <= k < |records| ==>
      records[k].Valid() && records[k].Value() == Element(Local(before[k].tag), None, [])
  {
    outs := [];
    for i := 0 to |records|
      invariant OutputsOf(before[..i], outs)
      invariant bulk.entities == old(bulk.entities) + Concat(outs)
      invariant forall k :: 0 <= k < |records| ==> records[k].Valid()
      invariant forall k :: 0 <= k < i ==> records[k].Value() == Element(Local(before[k].tag), None, [])
      invariant forall k :: i <= k < |records| ==> records[k].Value() == before[k]
    {
      AllMappableAt(before, i);
      var out := PutRecord(records[i], bulk, before[i]);
      OutputsOfSnoc(before[..i], outs, before[i], out);
      assert before[..i + 1] == before[..i] + [before[i]];
      ConcatSnoc(outs, out);
      outs := outs + [out];
    }
    assert before[..|records|] == before;
  }
}
