# GLEIF LEI record mapping

This project models the mapping in opensanctions/gleif `parse.py`. The mapping turns
GLEIF "LEI-CDF" `LEIRecord` elements into FollowTheMoney entities:

- `lei_id` derives a Company id from an LEI.
- `parse_date` keeps the date part of a timestamp.
- `remove_namespace` rewrites every tag of a record's element tree, in place, to its
  local name.
- The loop of `parse_lei_file` turns each record into one `Company`. When the record
  names a `SuccessorEntity`, it also builds one `Succession`. Both go to an append-only
  sink (`bulk.put`): the Succession is put, then the record's element is cleared, then
  the Company is put.

The project has four modules:

- `Wrappers` (`wrappers.dfy`) holds `Option`, which stands for Python's `None`-or-value.
- `Xml` (`xml.dfy`) is the part of lxml the mapping relies on:
  - qualified tags and element values;
  - `find` and `findtext` by plain tag name;
  - `Strip`, the pure meaning of namespace removal;
  - `ElementTree`, a record held as a node table whose tags are rewritten in place and
    which `clear` empties.
- `Entities` (`entities.dfy`) holds an entity value (schema, id, multi-valued string
  properties), `add`, and the `Bulk` sink class.
- `Parse` (`parse.dfy`) holds the operations of `parse.py` and the properties proved
  about them.

The file loop is specified against functions of the records as they were read:

- `RecordOutput(el)` is what one record yields: `[Succession?] + [Company]`.
- `OutputsOf(records, outs)` says that `outs[k]` is record `k`'s output.
- The sink ends as its old contents followed by `Concat(outs)`.

Lemmas about these functions give the output length, where each block sits, the order
of Companies, and where a Succession sits relative to its Company.

Points of behaviour worth stating:

- The Succession id is `"succession-" + LEI + "-" + successor LEI`, with no `lei-`
  prefix (parse.py:58).
- A missing `LEI` is not skipped. `findtext` gives `None`, and the f-string prints it,
  so the id becomes `"lei-None"`. `Str` models this.
- No record is skipped: a record lacking a dereferenced child makes the loop raise.
- Nothing is checked about the number of records a file yields.

## Model

| member | source | states |
|---|---|---|
| Xml.Local | parse.py:14 | a rewritten tag has no namespace and keeps the local name |
| Xml.FirstWithTag | parse.py:36 | a found position is in range and holds the requested plain tag |
| Xml.Find | parse.py:36 | `find` returns only a child carrying the requested plain tag |
| Xml.FirstWithTagIsFirst | parse.py:36 | no earlier child carries the tag; when nothing is found, no child does |
| Xml.FindIsFirst | parse.py:36 | `find` fails exactly when no child carries the tag, and otherwise returns the first child that does |
| Xml.FindText | parse.py:34 | `findtext` is present exactly when `find` is, and gives that child's text or "" when the child has no text |
| Xml.Strip | parse.py:12-16 | the pure effect of rewriting every tag to its local name; its meaning is stated by NormalizedIffStrip, StripRemovesNamespaces, StripFixpoints and StripIdempotent |
| Entities.MakeEntity | parse.py:33 | `model.make_entity(schema)` followed by setting the id (parse.py:33-35, 57-58): the entity has that schema and id and no properties |
| Parse.Str | parse.py:20 | how an f-string prints an optional string: the string itself, or "None" (also parse.py:35, 58); its effect on ids is stated by CompanyFields and SuccessionFields |
| Parse.HasRequiredParts | parse.py:36-50 | the children the mapping dereferences without a check: Entity, Registration, and Entity's RegistrationAuthority and LegalForm |
| Parse.CompanyOf | parse.py:33-51 | the Company built from a namespace-free record by successive `add` calls; its contents are stated by CompanyFields and CompanyKeys |
| Parse.SuccessionOf | parse.py:54-60 | the Succession a record yields when it has a SuccessorEntity; its contents are stated by SuccessionFields |
| Parse.MapRecord | parse.py:54-64 | what the loop puts for a namespace-free record, Succession (if any) then Company; its shape is stated by RecordOutputShape, CompaniesOfRecord and SuccessionBeforeCompany |
| Xml.NormalizedIffStrip | parse.py:12-16 | stripping is exactly the node-by-node normalisation: every tag loses its namespace and keeps its local name, and texts, child counts and child order are unchanged; no other tree satisfies this |
| Xml.StripRemovesNamespaces | parse.py:13-14 | after stripping, no tag anywhere in the tree has a namespace |
| Xml.StripFixpoints | parse.py:12-16 | the trees stripping leaves unchanged are exactly the namespace-free ones |
| Xml.StripIdempotent | parse.py:12-16 | removing namespaces twice equals removing them once |
| Xml.FindAfterStrip | parse.py:32-36 | after namespace removal, `find(name)` returns the stripped first child whose local name is `name`, whatever its namespace was, and fails when there is none |
| Xml.BuildStrip | parse.py:13-14 | rewriting every entry of the tag table to its local name strips the tree the table holds |
| Xml.ElementTree.constructor | parse.py:31 | a parsed record tree holds the element its node table describes |
| Xml.ElementTree.Clear | parse.py:63 | `clear` leaves the element with its tag and with no text and no children |
| Entities.Add | parse.py:37 | `add` keeps schema and id, ignores an absent value, and otherwise makes the property present |
| Entities.AddValues | parse.py:37-51 | `add` leaves other properties alone, keeps old values as a prefix, adds only the given value, and never duplicates a value |
| Entities.AddAllOther | parse.py:37-51 | a run of `add` calls keeps schema and id and leaves every property it does not name unchanged |
| Entities.AddAllNamed | parse.py:37-51 | with distinct, fresh property names, each property ends up holding exactly its field's value, if present |
| Entities.AddAllKeys | parse.py:37-51 | a run of `add` calls creates exactly the properties whose values are present |
| Entities.Bulk.constructor | parse.py:30 | a new sink is empty |
| Entities.Bulk.Put | parse.py:61-64 | `put` appends the entity and keeps everything put before |
| Parse.LeiId | parse.py:19-20 | the Company id is four characters longer than the LEI, and the LEI can be recovered from it |
| Parse.LeiIdInjective | parse.py:19-20 | distinct LEIs give distinct Company ids |
| Parse.BeforeFirst | parse.py:26 | `split(sep)[0]` is a prefix without `sep`, followed in the input by `sep` or the end, and it is the whole input when there is no `sep` |
| Parse.ParseDate | parse.py:23-26 | `None` stays `None`; otherwise the result is a prefix of the input without "T", followed in the input by "T" or the end |
| Parse.BeforeFirstUnique | parse.py:26 | those properties determine the result: any prefix with them is it |
| Parse.ParseDateIdempotent | parse.py:23-26 | truncating a truncated date changes nothing |
| Parse.ParseDateExample | parse.py:23-26 | "2022-05-18T00:00:00Z" becomes "2022-05-18" |
| Parse.RemoveNamespace | parse.py:12-16 | the loop rewrites every tag to its local name in place, and the tree then holds the stripped tree |
| Parse.CompanyFields | parse.py:33-51 | the Company has id `lei_id(LEI)` and exactly the values of its seven source fields (dates truncated), and no other properties |
| Parse.CompanyKeys | parse.py:37-51 | a Company gets no property outside the seven fixed names |
| Parse.SuccessionFields | parse.py:54-60 | a Succession exists exactly when `SuccessorEntity` is present; its id is "succession-" + LEI + "-" + successor LEI, its predecessor the raw LEI, and its successor `lei_id(successor LEI)` |
| Parse.RecordOutputShape | parse.py:54-64 | a record yields its Company last, preceded by its Succession exactly when it names a successor |
| Parse.CompaniesOfRecord | parse.py:31-64 | each record yields exactly one Company, its own |
| Parse.OutputsUnique | parse.py:31-64 | the outputs of a sequence of records are determined by the records |
| Parse.EmittedLength | parse.py:31-64 | the number of entities put equals the number of records plus the number of records that name a successor |
| Parse.EmittedBlock | parse.py:31-64 | record `k`'s output follows, contiguously, everything put for the records before it |
| Parse.SuccessionBeforeCompany | parse.py:54-64 | a record's Succession is put immediately before its Company |
| Parse.CompaniesInOrder | parse.py:31-64 | the Companies put are one per record, each that record's Company, in record order |
| Parse.PutEntities | parse.py:33-64 | for a namespace-free record, the sink grows by exactly the record's mapped entities, and the element is left cleared |
| Parse.PutRecord | parse.py:32-64 | one loop iteration appends exactly the record's output to the sink and leaves the element cleared with its local tag |
| Parse.ParseLeiFile | parse.py:29-64 | the sink keeps its old contents, followed by every record's output in record order, and every record ends cleared with its local tag |

## Left out

- Streaming: `etree.iterparse` and the byte stream are not modelled (parse.py:31). The
  records arrive as a sequence of already-parsed, distinct trees. The ghost `before`
  parameter holds their values as read.
- `etree.cleanup_namespaces` is not modelled (parse.py:15). It only prunes namespace
  declarations, and the model has none.
- Attributes, tails and comments of XML elements are not modelled. `Clear` empties only
  the text and the children.
- Records lacking `Entity`, `Registration`, `Entity/RegistrationAuthority` or
  `Entity/LegalForm` make the source raise `AttributeError` and abort the run. The model
  requires these children of every record (`Mappable`, `AllMappable`) instead of modelling
  the crash.
- FollowTheMoney value cleaning and type validation in `make_entity`/`add` are not
  modelled. Values are stored verbatim. For example, an empty `""` from an element without
  text is kept where FollowTheMoney would drop it.
- The ftmstore `Dataset`, `bulk()` buffering and persistence are not modelled. The sink is
  a sequence that `Put` appends to.
- The `__main__` block is not modelled (parse.py:67-71): the database URI, `dataset.delete()`
  and the hard-coded input file are I/O.
- The unused `pprint` import and the commented-out debug line have no behaviour
  (parse.py:3, 52).
