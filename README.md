# Contacts store: a verified model of the collection algebra

The repository is a small REST API over a contact list. The list is kept as a
JSON array in one file. The logic sits in `models/contacts.js`: five exported
functions. Each one loads the whole array and performs one sequence operation
on it. The mutating ones then write the whole array back:

- `listContacts` returns the array.
- `getContactById` returns the first record whose `id` equals the argument, or `null`.
- `removeContact` filters out every matching record. When nothing matched it
  returns `null` and skips the write; otherwise it returns `true`.
- `addContact` appends `{ id: generated, ...input }`.
- `updateContact` replaces the first match with `{ ...existing, ...updates }`.

The model is the Dafny module `Contacts` in `contacts.dfy`:

- A contact is a `map<string, string>`. The source builds records with
  object spread, and spread is right-biased map union (`a + b` in Dafny).
- `contact.id === contactId` is `HasId`: the record has an `"id"` key
  holding that string. A record with no `"id"` never matches.
- Pure functions give find (`FindIndex`, `Find`), filter (`Without`, with
  `Count` for the number of matches) and spread (`Merge`, `NewRecord`).
  Their contracts state what each result means: the earliest match, the
  survivors, the merged keys.
- The backing file is the `contacts: seq<Contact>` field of class
  `ContactStore`. Each exported function is one method. A method's
  postconditions tie the new `contacts` and the returned value to the old
  `contacts`.
- The source's `null` results are `None` in `GetContactById` and
  `UpdateContact`, and `false` in `RemoveContact`.
- The generated id (`Date.now().toString()`) is a parameter of `AddContact`.
- The PUT schema is declared with `stripUnknown: true` (`app.js:97`), but
  the validated value is discarded and the raw `req.body` is passed to
  `updateContact` (`app.js:103`). So nothing is stripped: the update payload
  is an arbitrary map here, and an `"id"` in the body reaches the merge and
  overwrites the stored id (`UpdateCanRewriteId`).

Lemmas relate the operations to each other:

- Survivors of a removal keep their relative order (`WithoutConcat`). They
  keep their multiplicities (`WithoutMultiset`).
- Removal is idempotent (`WithoutIdempotent`). The length test of
  `removeContact` detects exactly whether some record matched
  (`WithoutUnchangedIff`).
- Create-then-fetch returns the created record (`AddThenGet`), unless the
  input carries its own `"id"` (`AddWithIdKeyIgnoresGeneratedId`) or the
  generated id collides with a stored one (`FindAppend`).
- Remove-then-fetch finds nothing, and other ids are unaffected
  (`RemoveThenGet`).
- Update-then-fetch returns the merged record when the updates carry no
  `"id"`, and later duplicates stay in place (`UpdateThenGet`). When the
  updates carry a different `"id"`, lookup by the old id falls through to a
  later duplicate, if any (`UpdateCanRewriteId`).

## Model

| member | source | states |
|---|---|---|
| `Contacts.FindIndex` | models/contacts.js:36 | the result is the position of the earliest record carrying the id; None exactly when no record carries it |
| `Contacts.Find` | models/contacts.js:13 | the result is the earliest record carrying the id; None exactly when no record carries it |
| `Contacts.Count` | models/contacts.js:18-19 | the number of matches is at most the length, and zero exactly when no record carries the id |
| `Contacts.Without` | models/contacts.js:18 | the filtered sequence is shorter by exactly the number of matches, holds no record with the id, and holds only records of the input |
| `Contacts.Merge` | models/contacts.js:39 | spread: the keys of both sides, the right side's value wherever it has the key, otherwise the left side's value |
| `Contacts.NewRecord` | models/contacts.js:27 | the new record has the input's keys plus "id", every input value, and the generated id when the input has no "id" |
| `Contacts.ContactStore.constructor` | models/contacts.js:4 | the store starts with the given collection |
| `Contacts.ContactStore.ListContacts` | models/contacts.js:6-9 | returns the stored collection, in stored order |
| `Contacts.ContactStore.GetContactById` | models/contacts.js:11-14 | returns the earliest stored record with the id, and None exactly when none has it |
| `Contacts.ContactStore.RemoveContact` | models/contacts.js:16-23 | reports true exactly when some record had the id; the store is then the filtered sequence, otherwise unchanged; afterwards no record has the id and the length dropped by the match count |
| `Contacts.ContactStore.AddContact` | models/contacts.js:25-32 | the store is the old sequence with exactly the new record appended, and that record is returned |
| `Contacts.ContactStore.UpdateContact` | models/contacts.js:34-42 | None and no change exactly when no record has the id; otherwise only the first matching position is replaced by the merge of it with the updates, which is returned |
| `Contacts.WithoutConcat` | models/contacts.js:18 | filtering distributes over concatenation, so survivors keep their relative order |
| `Contacts.WithoutMultiset` | models/contacts.js:18 | every record without the id keeps its multiplicity; records with it occur zero times |
| `Contacts.WithoutIdempotent` | models/contacts.js:16-22 | filtering twice equals filtering once |
| `Contacts.WithoutUnchangedIff` | models/contacts.js:18-19 | the filtered length equals the original exactly when nothing was filtered, which is exactly when no record has the id |
| `Contacts.WithoutNoMatch` | models/contacts.js:18-19 | with no record carrying the id, filtering returns the input |
| `Contacts.FindAppend` | models/contacts.js:13 | after appending, lookup returns the earlier match if any, else the appended record if it matches, else None |
| `Contacts.FirstMatchUnique` | models/contacts.js:13 | the earliest match is unique |
| `Contacts.AddThenGet` | models/contacts.js:27-28 | with a fresh generated id and no "id" in the input, lookup after appending returns the new record, which is the input plus "id" |
| `Contacts.AddWithIdKeyIgnoresGeneratedId` | models/contacts.js:27 | an "id" in the input wins over the generated id: lookup by the generated id finds nothing, lookup by the input's id finds a record |
| `Contacts.RemoveThenGet` | models/contacts.js:13-18 | after filtering, lookup by that id gives None and lookup by any other id is unchanged |
| `Contacts.FindWithoutOther` | models/contacts.js:13-18 | filtering out one id does not change lookup by a different id |
| `Contacts.FindCons` | models/contacts.js:13 | lookup checks the first record before the rest |
| `Contacts.UpdateThenGet` | models/contacts.js:36-39 | with no "id" in the updates, lookup after the update returns the merged record and the match count is unchanged |
| `Contacts.CountReplace` | models/contacts.js:39 | replacing a record by one with the same id status keeps the match count |
| `Contacts.UpdateCanRewriteId` | models/contacts.js:36-39 | for any collection and payload, a different "id" in the updates overwrites the stored id of the first match, and lookup by the old id then gives what lookup in the records after that position gives |
| `Contacts.FindSkipNoMatch` | models/contacts.js:13 | a prefix with no record carrying the id does not change lookup |

## Left out

- File I/O and serialisation (`fs.readFile`, `fs.writeFile`, `JSON.parse`, `JSON.stringify` pretty-printing, `path.join`): replaced by the `contacts` field. Unreadable or malformed files are I/O failures and are not modelled.
- Id generation from the wall clock (`Date.now().toString()`): nondeterministic, so it is the `generatedId` parameter of `AddContact`.
- JSON values other than strings (numbers, nested objects, arrays, `null`): every property value is a string here. A stored record with a non-string `id` never strictly equals the string argument, so it is one without a matching id. An update payload can also carry one: with `allowUnknown: true` (`app.js:97`) a body such as `{"id": 5, "phone": "1"}` passes validation, and the merge at `models/contacts.js:39` then replaces the stored string id by the number 5, after which the record no longer matches. `Merge` over string values cannot produce that step.
- Property order: `models/contacts.js:27` writes "id" first and the serialised file keeps insertion order; a Dafny map has no order, so the model does not capture the order of properties in a record.
- Asynchrony and the lost-update race between overlapping requests: each method is one atomic load-modify-store step.
- All of `app.js`: Express routing, `morgan`, `cors`, `app.listen`, the mapping of results to status codes, and the Joi schemas. Joi's semantics (email format in particular) are a library not shown.
