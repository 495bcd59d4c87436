# React course exercises: the logic under the components, in Dafny

This project models the pure logic of four pieces of a React course repository.
Each piece stands alone, and each is proved in Dafny.

- **Contact directory** (`fake_api.dfy`, module `FakeApi`; string order in `lex_order.dfy`).
  This is the fake back end of the contacts exercise.
  A store of `{id, name, phone}` records serves list, retrieve, create, update and delete.
  Answers are either `Ok(payload)` or `Fail(status, message)`.
  The two statuses are 404 (no contact with that id) and 400 (a form field is empty).
  The messages are the Portuguese strings of the source.
  Every write goes through `SetContacts`, which sorts by name before storing.
  The store is a `seq<Contact>` that each operation takes and returns.
  The fresh id that `createContact` derives from the clock is a parameter.
- **Order reducer** (`pedido_reducer.dfy`, module `PedidoReducer`; items in `itens.dfy`).
  `adiciona` counts one more unit of a product, and `limpa` empties the order.
  The reducer edits a copy, so the state it receives is never changed; in Dafny every value is immutable, so this holds by construction.
- **`Pedido` class** (`pedido.dfy`, module `Pedido`).
  It has the `preco` and `quantidade` getters, written as loops.
  It also has `adicionaProduto` and `limpa`, each returning the list it hands to `setState`.
  A proof shows that `adicionaProduto` computes the same list as the reducer.
- **Photo gallery cursor** (`galeria.dfy`, module `Galeria`).
  The cursor `fotoAtual` moves under four buttons, each with its `disabled` guard.
- **World-cup CSV script** (`copa.dfy`, module `Copa`).
  It covers `capitalize`, the stage label, the year of a row, and the fold that groups rows into cups.
  It also covers the `writeFile` guard for an empty cup, and the one write at the end of the stream.

`search.dfy` (module `Search`) holds `Option` and `FindIndex`.
`FindIndex` is the first-match search behind JavaScript's `findIndex` and `find`, which all three list-based pieces use.

Behaviour of the contacts code that a reader might not expect:
- There is no seed dataset. An absent store reads as the empty list (`GetContacts`).
- Ids are not checked for uniqueness. `DuplicateIdsReachable` exhibits two records sharing an id after two creates.
  With a shared id, retrieving it after an update can answer the record that was not updated (`UpdateWithDuplicateIds`).
- Sorting uses plain lexicographic order on character codes in place of `localeCompare`.
- There is no stale-response or cancellation handling in the code, so none is modelled.

## Model

| member | source | states |
|---|---|---|
| `Search.FindIndex` | exercicios/base/src/pedidoReducer.ts:17-19 | the index returned satisfies the predicate and no earlier element does; None exactly when no element satisfies it |
| `FakeApi.GetContacts` | exercicios/contacts/src/fakeApi.ts:77-79 | an absent stored blob reads as the empty store; there is no seed data |
| `FakeApi.SetContacts` | exercicios/contacts/src/fakeApi.ts:81-84 | what is stored is a permutation (same multiset) of the argument, sorted ascending by name |
| `FakeApi.SetContactsOfSorted` | exercicios/contacts/src/fakeApi.ts:81-84 | storing an already sorted list leaves it exactly as it is (the sort is stable) |
| `FakeApi.ValidateContact` | exercicios/contacts/src/fakeApi.ts:63-71 | an empty name gives the name message whatever the phone; with a name, the phone message comes exactly when the phone is empty; "" exactly when both fields are filled |
| `FakeApi.ListContacts` | exercicios/contacts/src/fakeApi.ts:16-19 | listing never fails and answers the whole store as read, unfiltered and in stored order |
| `FakeApi.FindContact` | exercicios/contacts/src/fakeApi.ts:23 | `find` by id picks the first record with that id, and finds nothing exactly when no record has it |
| `FakeApi.RetrieveContact` | exercicios/contacts/src/fakeApi.ts:21-28 | 404 with "Não existe contato com id " + id exactly when no record has the id; otherwise the first record with that id |
| `FakeApi.CreateContact` | exercicios/contacts/src/fakeApi.ts:30-39 | invalid data: 400 with the validation message, store unchanged; valid data: the new record `{newId, name, phone}` is answered and the new store is a sorted permutation of the old store plus that record |
| `FakeApi.UpdateContact` | exercicios/contacts/src/fakeApi.ts:41-55 | an absent id gives 404 even for invalid data; invalid data on a present id gives 400; both leave the store unchanged; on success the first record with the id keeps its id and takes the new name and phone, every other record stays, and the store is re-sorted |
| `FakeApi.RemoveId` | exercicios/contacts/src/fakeApi.ts:59 | the filter drops every record with the id and keeps each other record with its multiplicity; with no such record it is the identity |
| `FakeApi.RemoveIdSingle` | exercicios/contacts/src/fakeApi.ts:59 | a one-record list keeps its record exactly when the record's id differs |
| `FakeApi.RemoveIdAppend` | exercicios/contacts/src/fakeApi.ts:59 | filtering a concatenation filters each part and concatenates the results, so survivors keep their original order |
| `FakeApi.RemoveIdKeepsSorted` | exercicios/contacts/src/fakeApi.ts:59 | dropping records from a store sorted by name leaves it sorted |
| `FakeApi.DeleteContact` | exercicios/contacts/src/fakeApi.ts:57-61 | delete always answers Ok; the new store is sorted and holds every record without the id, and none with it |
| `FakeApi.DeleteOfSorted` | exercicios/contacts/src/fakeApi.ts:57-61 | on a sorted store (every reachable store is one) the delete stores exactly the filtered list, because re-sorting it changes nothing |
| `FakeApi.DeleteRemovesId` | exercicios/contacts/src/fakeApi.ts:59 | after a delete, no record has the deleted id |
| `FakeApi.DeleteThenRetrieve` | exercicios/contacts/src/fakeApi.ts:21-28 | retrieving a deleted id answers 404 |
| `FakeApi.DeleteIdempotent` | exercicios/contacts/src/fakeApi.ts:57-61 | deleting an id twice gives the same store and answer as deleting it once |
| `FakeApi.DeleteUnknownIsNoop` | exercicios/contacts/src/fakeApi.ts:57-61 | on a sorted store, deleting an id no record has changes nothing |
| `FakeApi.CreateThenRetrieve` | exercicios/contacts/src/fakeApi.ts:30-39 | after creating a valid contact under an unused id, retrieving that id answers the new record |
| `FakeApi.UpdateThenRetrieve` | exercicios/contacts/src/fakeApi.ts:41-55 | with unique ids, retrieving an updated id answers the original id with the new name and phone |
| `FakeApi.ListAlwaysSorted` | exercicios/contacts/src/fakeApi.ts:16-19 | after any sequence of requests from an empty browser store, listing answers Ok with the records sorted by name |
| `FakeApi.DuplicateIdsReachable` | exercicios/contacts/src/fakeApi.ts:36-37 | two creates with the same time-derived id leave two records sharing it: nothing enforces unique ids |
| `FakeApi.UpdateWithDuplicateIds` | exercicios/contacts/src/fakeApi.ts:41-55 | with two records sharing id "7" (Ana, then Bia), updating "7" to Ze answers Ze, but retrieving "7" afterwards answers Bia: the re-sort moves the updated record behind the other |
| `PedidoReducer.IndiceDoProduto` | exercicios/base/src/pedidoReducer.ts:17-20 | the index found is the first item of that product; none exactly when the product has no item |
| `PedidoReducer.Reducer` | exercicios/base/src/pedidoReducer.ts:14-33 | `limpa` gives the empty list; `adiciona` of an absent product appends `{produto, 1}`; of a present product, the first item of that product gets one more unit, and the length and every other item are unchanged |
| `PedidoReducer.AdicionaContaUmaUnidade` | exercicios/base/src/pedidoReducer.ts:15-29 | `adiciona` raises the total quantity by exactly 1 and grows the list by at most one item |
| `PedidoReducer.AdicionaContaOProduto` | exercicios/base/src/pedidoReducer.ts:17-27 | `adiciona` raises the added product's quantity by exactly 1 and leaves every other product's quantity alone |
| `PedidoReducer.AdicionaPreservaDistintos` | exercicios/base/src/pedidoReducer.ts:17-27 | if no product has two items before `adiciona`, none has after, and the added product has an item |
| `Itens.TotaisAppend` | exercicios/base/src/pedidoReducer.ts:26 | appending an item adds its quantity to the total and to its product's quantity |
| `Itens.TotaisUpdate` | exercicios/base/src/pedidoReducer.ts:21-24 | replacing an item changes the totals by the difference between the new and old quantities |
| `Pedido.Preco` | exercicios/react-food/src/Pedido.ts:11-17 | the getter's loop computes the sum of quantity times unit price over the items |
| `Pedido.Quantidade` | exercicios/react-food/src/Pedido.ts:19-25 | the getter's loop computes the sum of the quantities |
| `Pedido.AdicionaProduto` | exercicios/react-food/src/Pedido.ts:27-41 | the list handed to `setState` is the one the reducer's `adiciona` produces, so the total quantity grows by exactly 1 |
| `Pedido.Limpa` | exercicios/react-food/src/Pedido.ts:43-45 | `setState` receives the empty list, so both getters then answer 0 |
| `Galeria.Inicial` | exercicios/galeria-fotos/src/Galeria.tsx:5 | the cursor starts at 0, which is on a photo whenever there is one |
| `Galeria.Clique` | exercicios/galeria-fotos/src/Galeria.tsx:8-22 | a click takes effect exactly when there are photos and the button is not disabled; "Primeira" goes to 0, "Anterior" to one less, "Próxima" to one more, "Última" to the last index; an enabled click keeps the cursor on a photo |
| `Galeria.Renderiza` | exercicios/galeria-fotos/src/Galeria.tsx:24-48 | "Nenhuma foto" exactly when there are no photos; otherwise it shows the current photo, the number `fotoAtual + 1` (between 1 and the count) and the count, and the enabled buttons are exactly those whose click takes effect |
| `Galeria.NavegaMantemCursor` | exercicios/galeria-fotos/src/Galeria.tsx:32-43 | from a cursor on a photo, any series of clicks leaves it on a photo |
| `Galeria.CursorSempreValido` | exercicios/galeria-fotos/src/Galeria.tsx:5-43 | from a fresh gallery with photos, every reachable cursor lies in 0 to length-1 |
| `Galeria.SemFotosNadaMuda` | exercicios/galeria-fotos/src/Galeria.tsx:27-28 | without photos no click changes anything and "Nenhuma foto" is shown |
| `Galeria.ProximaAvanca` | exercicios/galeria-fotos/src/Galeria.tsx:16-18 | k clicks on "Próxima" move the cursor k photos on while photos remain |
| `Galeria.TodaFotoAlcancavel` | exercicios/galeria-fotos/src/Galeria.tsx:16-18 | every photo index can be reached from a fresh gallery |
| `Copa.ToUpper` | scripts/copa.js:48 | each lower-case ASCII letter becomes its upper-case letter (code point minus 32), and every other character is unchanged |
| `Copa.Capitalize` | scripts/copa.js:47-49 | only the first character is upper-cased; the rest and the length are kept, and "" maps to "" |
| `Copa.CapitalizeIdempotent` | scripts/copa.js:47-49 | capitalizing twice is capitalizing once |
| `Copa.StageLabel` | scripts/copa.js:27 | for "group stage" the label is the group name; otherwise it is the stage name with its first letter upper-cased |
| `Copa.YearIsPrefix` | scripts/copa.js:15-16 | the year is the prefix of the date of length 4, or the whole date when it is shorter |
| `Copa.Matches` | scripts/copa.js:25-32 | each row becomes the match with its date, label, teams and scores, in row order |
| `Copa.Step` | scripts/copa.js:14-33 | after a row the cup in hand has that row's year; a row of the cup's year appends its match, a row of another year starts a cup holding only its match |
| `Copa.LastRunStart` | scripts/copa.js:17-23 | marks the start of the last run of rows sharing the last row's year |
| `Copa.FoldKeepsLastRun` | scripts/copa.js:14-36 | after all rows, the cup in hand is the last row's year with exactly the matches of the last run of rows of that year, in row order |
| `Copa.WriteFile` | scripts/copa.js:41-45 | nothing is written for a cup without matches; otherwise the cup goes to `./dados/api/worldcup/<year>.json` |
| `Copa.Export` | scripts/copa.js:37-45 | a file is written exactly when the CSV had a row; it is named after the year of the cup it holds, and that cup has matches |
| `Copa.ExportWritesLastCupOnly` | scripts/copa.js:37-39 | an empty CSV writes nothing; otherwise exactly one file is written, and it holds the last year's run of matches |

## Left out

- Latency: the `delay(1000)` before every contact operation is not modelled. Each operation is one atomic step.
- Browser storage: `localStorage` and JSON (de)serialisation are not modelled. The store is a value. A stored blob is an `Option`, where an absent or empty blob reads as `[]`.
- Concurrency: races between operations in flight are not modelled. The code has no guard against them. Last writer wins.
- `FakeApi.SetContacts`: sorts by lexicographic order on character codes instead of `localeCompare`. Locale collation is not modelled, and only the sortedness and permutation properties are stated. Stability is proved only for input that is already sorted.
- `FakeApi.CreateContact`: the id comes from the caller, standing for `new Date().getTime().toString()`. Clock-derived ids are not claimed unique, because the code does not make them so.
- `FakeApi.CreateContact`: the spread `{ id, ...data }` copies every own key of the form data, so an `id` key in the data would replace the fresh id and extra keys would be stored. The model's `ContactData` has only `name` and `phone`, so neither can happen here.
- `FakeApi.UpdateContact`: `Object.assign` copies every own key of the form data onto the record, so an `id` key in the data would overwrite the record's id and extra keys would be stored. The model's `ContactData` has only `name` and `phone`, so the record keeps its id and only those two fields change.
- Routing glue in the contacts App.tsx is left out, along with the idle/loading/submitting display. That file returns create/update failures to the form (lines 24-25, 36-37) and throws delete failures to the error page (line 46).
- Floating point: prices and quantities are integers, so `preco` is exact (cents).
- `Copa.Matches`: scores are kept as the CSV strings. `parseInt` is not modelled.
- `Copa.ToUpper`: only ASCII letters are upper-cased. JavaScript's `toUpperCase` also maps other letters, and can lengthen a string ("ß" becomes "SS"). Length preservation holds only under this restriction.
- The CSV stream, `fs.writeFileSync` and `console.log` in the world-cup script are left out. Rows arrive as a sequence, and the write is returned as a value.
- `Galeria`: a change of the `fotos` prop while `fotoAtual` is kept is not modelled. The gallery is created with its photos. Markup, the image `alt` text and styling are left out.
- The network fetch wrappers, the other page components, and the build scripts are not part of this model.
