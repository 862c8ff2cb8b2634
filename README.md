# Livestock settlement records: a verified model of the recompute rule

The application keeps one record per partner ("socio"), date ("fecha") and
cattle shipment. A record holds raw inputs: entries and exits of animals,
total weight, price per kilo, freight and commission. Beside them it keeps
three derived amounts: the balance (`saldo`), the settlement total (`total`)
and the value per animal (`valorAnimal`). The freight of a shipment is split
among the records that the same partner logged on the same day. Adding or
editing one record can therefore change the derived amounts of other
records. For that reason the application rebuilds every derived field after
each load.

This project models that logic in Dafny and proves what it promises:

- `Recompute`: the recompute pass. `Reconcile` is the pass as a function of
  the record sequence, and `RecalculateAll` is its loop. The loop pushes each
  rebuilt record onto a growing result and is proved equal to `Reconcile`.
- `Preview`: the live preview shown while the form is filled in. Its
  divisor is the loaded records of the group plus one. `CalculatePreview`
  updates its variables step by step and is proved equal to `PreviewOf`.
- `Submit`: the record the submit handler builds. A blank partner is
  rejected; otherwise the partner is trimmed and upper-cased. This module also
  models the in-place edit of a record's raw fields, and proves how the
  preview, an edit and the next recompute pass relate.
- `Views`: the sorted, duplicate-free partner selector, the selected
  partner's records and that partner's totals.
- `Text`: `trim()` with ECMAScript's white-space set, ASCII upper-casing, and
  the default string order of `Array.prototype.sort`.
- `Records`: the record datatype, and `Num`, which reads a field the way
  `parseFloat(x) || 0` does.

Amounts are Dafny `real`s and counts are `nat`s. A numeric form field is an
`Option<real>`: `None` is text that does not parse as a number, and it reads
as 0.

Three behaviours of the code are modelled as written, and lemmas make them
visible:

- The partner field upper-cases every keystroke (`Preview.EnterPartner`),
  but it trims nothing. The preview therefore counts the partner with any
  outer white space still attached. The stored record uses the trimmed
  name. `Submit.PreviewCountsUntrimmedPartner` shows that typing `acme `,
  with a trailing space, next to a stored `ACME` record gives a preview
  divisor of 1. The saved record joins a group of 2.
  `Text.StoredFormOfUpper` proves that outer white space is the only such
  difference. `Submit.TypedPartnerPreviewAgrees` proves that for a partner
  typed without outer white space the preview and the next recompute pass
  agree.
- The preview shows a total of 0 when the weight or the price is missing.
  The recompute pass still charges the record its freight share
  (`Submit.UnpricedPreviewIsCorrectedByRecompute`).
- The in-place edit row offers the date and the five amounts entries,
  exits, weight, price and freight; the partner and the commission pass
  through from the record being edited. Saving upper-cases the carried-over
  partner again (`Submit.ApplyEdit`), which leaves every partner the form
  stored unchanged (`Submit.EditKeepsStoredPartner`).

## Model

| member | source | states |
|---|---|---|
| `Records.Num` | src/App.tsx:154-158 | a field that does not parse as a number reads as 0 |
| `Recompute.GroupSize` | src/App.tsx:103-105 | defines the divisor: how many records share a partner and a date; `GroupSizeIsIndexCount` states its meaning |
| `Recompute.Recalculated` | src/App.tsx:108-121 | defines the rebuild of one record for a divisor n ≥ 1; `RecalculatedFields` states its contract |
| `Recompute.Reconcile` | src/App.tsx:98-141 | defines the recompute pass, each record rebuilt for its own group's size; the `Reconcile…` lemmas below state its contract |
| `Recompute.GroupSizeIsIndexCount` | src/App.tsx:103-105 | the divisor counted by the recompute pass is the number of positions whose partner and date both equal the given ones |
| `Recompute.GroupSizeOfMember` | src/App.tsx:103-108 | a record counts itself, so its divisor is at least 1 and the freight division never divides by zero |
| `Recompute.GroupSizeRespectsKeys` | src/App.tsx:103-105 | group sizes depend only on the partner and date at each position |
| `Recompute.GroupSizeAfterReplace` | src/App.tsx:103-105 | replacing one record moves exactly one member out of its old group and into its new one |
| `Recompute.RecalculateAll` | src/App.tsx:98-141 | the loop that pushes each rebuilt record returns exactly `Reconcile` of its input |
| `Recompute.ReconcileKeepsRaw` | src/App.tsx:101-123 | the output has the input's length and order, and every raw field (partner, date, entries, exits, weight, price, freight, commission) is unchanged |
| `Recompute.ReconcileAt` | src/App.tsx:101-121 | output position i is input record i rebuilt for the size of its own group, which is at least 1 |
| `Recompute.RecalculatedFields` | src/App.tsx:108-121 | the per-record rule: total = weight × price + freight / n; per-animal value 0 without entries, total / entries with them; balance = entries − exits; raw fields kept |
| `Recompute.ReconcileTotal` | src/App.tsx:103-108 | every output total is weight × price plus the record's own freight divided by its group size |
| `Recompute.ReconcilePerAnimalAndBalance` | src/App.tsx:111-114 | every output per-animal value is 0 when entries ≤ 0 and total / entries otherwise; every balance is entries − exits, negative ones included |
| `Recompute.GroupSharesDivisor` | src/App.tsx:103-108 | two records of one group are rebuilt with one and the same divisor |
| `Recompute.RecalculatedShare` | src/App.tsx:108 | the freight share times the divisor gives back the record's own freight: freight is not pooled across the group |
| `Recompute.RecalculatedFixedPoint` | src/App.tsx:108-121 | the rule leaves a record unchanged exactly when its derived fields already match its raw ones |
| `Recompute.AppendedRecord` | src/App.tsx:103-108 | a record appended to the loaded ones is rebuilt for its group among them plus itself |
| `Recompute.FreightOnlyTotal` | src/App.tsx:108 | a record with no goods value but positive freight gets a positive total |
| `Recompute.ReconcileIdempotent` | src/App.tsx:98-141 | running the recompute pass on its own output changes nothing |
| `Preview.LoadedMatches` | src/App.tsx:146-148 | defines the preview's count of loaded records with a non-empty partner equal to the field and the same date; `LoadedMatchesIsGroupSize` relates it to the group size |
| `Preview.PreviewOf` | src/App.tsx:153-189 | defines what the preview shows; `CalculatePreview`, `PreviewGuards` and `PreviewPriced` state its contract |
| `Preview.LoadedMatchesIsGroupSize` | src/App.tsx:146-148 | for a non-empty partner, the preview's count (with its non-empty-partner test) equals the recompute pass's group count |
| `Preview.Divisor` | src/App.tsx:143-151 | the preview divisor is 1 when partner or date is empty, and otherwise the loaded records of that group plus one |
| `Preview.CalculatePreview` | src/App.tsx:153-189 | the step-by-step preview calculation returns exactly `PreviewOf` |
| `Preview.PreviewGuards` | src/App.tsx:160-181 | the divisor is at least 1 and stays 1, with a total of 0, unless weight and price are both positive; the per-animal value is 0 unless entries and total are positive; the balance is entries − exits |
| `Preview.EnterPartner` | src/App.tsx:550-556 | the partner field holds the typed text upper-cased: each lower-case ASCII letter becomes its capital, every other character, white space included, stays as typed, the length is kept, and no other field changes |
| `Preview.PreviewPriced` | src/App.tsx:164-181 | with positive weight and price, whatever the sign of the freight, the divisor is the group divisor and the total is weight × price + freight / divisor; the per-animal value is total / entries when entries and total are both positive, and 0 otherwise |
| `Preview.PreviewPricedPositive` | src/App.tsx:164-181 | with non-negative freight as well, the total is positive and the per-animal value is total / entries whenever there are entries |
| `Preview.PreviewNonNumericWeight` | src/App.tsx:157-181 | a weight that is not a number leaves total, per-animal value and divisor at 0, 0 and 1 |
| `Submit.NewRecord` | src/App.tsx:238-258 | the submit handler rejects a blank partner and nothing else; a stored record has its partner trimmed, upper-cased and non-empty, its raw numbers from the form and its derived fields from the preview |
| `Submit.ApplyEdit` | src/App.tsx:314-346 | an edit overwrites the date and the five editable amounts, keeps the commission, upper-cases the partner carried over from the record, and keeps the derived fields for the next recompute pass |
| `Submit.EditKeepsStoredPartner` | src/App.tsx:314-338 | editing a record whose partner is in stored form never changes its partner |
| `Submit.PreviewAgreesWithRecompute` | src/App.tsx:143-258 | for a partner in stored form, a date, positive weight and price and non-negative freight, the stored record is exactly what the next recompute pass makes of it |
| `Submit.TypedPartnerPreviewAgrees` | src/App.tsx:143-258 | a partner typed into the upper-casing field without outer white space, with a date, positive weight and price and non-negative freight, is stored exactly as the next recompute pass rebuilds it |
| `Submit.UnpricedPreviewIsCorrectedByRecompute` | src/App.tsx:98-189 | without weight or price the stored preview total is 0, while the next recompute pass charges a positive freight share |
| `Submit.PreviewCountsUntrimmedPartner` | src/App.tsx:143-151 | the preview compares the partner before trimming: `acme ` typed next to a stored `ACME` record reaches the preview as `ACME ` and previews divisor 1, while the stored record joins a group of 2 |
| `Submit.EditLeavesGroup` | src/App.tsx:98-141 | an edit that moves a record out of its group shrinks the group by one, and the next pass divides the other members' freight by the smaller count |
| `Text.IsSpace` | src/App.tsx:238 | defines the characters `trim()` removes: ECMAScript WhiteSpace and LineTerminator |
| `Text.IsBlank` | src/App.tsx:238 | defines the blank-partner test, an empty trimmed name; `TrimBlank` states its meaning |
| `Text.UpperChar` | src/App.tsx:247 | defines upper-casing of one character, for the ASCII letters |
| `Text.Upper` | src/App.tsx:247 | defines upper-casing of a name character by character; `UpperShape` states its contract |
| `Text.TrimStart` | src/App.tsx:247 | removes exactly the leading white space: what remains is a suffix that starts with a non-space |
| `Text.TrimEnd` | src/App.tsx:247 | removes exactly the trailing white space: what remains is a prefix that ends with a non-space |
| `Text.Trim` | src/App.tsx:247 | the trimmed name is no longer than the input and has no white space at either end |
| `Text.LeadingSpaces` | src/App.tsx:247 | the number of leading white-space characters |
| `Text.TrimIsSlice` | src/App.tsx:247 | the trimmed name is the slice of the input after its leading white space, and only white space follows it |
| `Text.TrimBlank` | src/App.tsx:238 | the blank-partner test holds exactly when the name is all white space |
| `Text.TrimOfTrimmed` | src/App.tsx:247 | trimming a name without outer white space returns it unchanged |
| `Text.UpperShape` | src/App.tsx:247 | upper-casing keeps the length, leaves no lower-case ASCII letter, changes nothing else and preserves white space |
| `Text.UpperIdempotent` | src/App.tsx:247 | upper-casing twice is upper-casing once |
| `Text.Normalize` | src/App.tsx:247 | the stored name is trimmed, has no lower-case ASCII letter, and is empty exactly when the typed name is blank |
| `Text.StoredFormOfUpper` | src/App.tsx:247 | an upper-cased typed name is already in stored form exactly when it has no white space at either end |
| `Text.NormalizeTrailingSpace` | src/App.tsx:247 | a trimmed name followed by a space is stored as the upper-cased name without the space |
| `Text.UpperOfStored` | src/App.tsx:338 | upper-casing leaves a name in stored form unchanged |
| `Text.NormalizeIdempotent` | src/App.tsx:247 | normalizing a stored name again changes nothing |
| `Text.Less` | src/App.tsx:426 | defines the default `sort()` order: character by character, a proper prefix first |
| `Text.LessIrreflexive` | src/App.tsx:423-426 | no name sorts before itself |
| `Text.LessTransitive` | src/App.tsx:423-426 | the sort order is transitive |
| `Text.LessTotal` | src/App.tsx:423-426 | any two distinct names are ordered one way or the other |
| `Text.LessAsymmetric` | src/App.tsx:423-426 | two names are never ordered both ways |
| `Views.PartnerNames` | src/App.tsx:423-426 | the names collected are exactly the non-empty partners of the records |
| `Views.Dedup` | src/App.tsx:423 | the `Set` keeps each name once and loses none |
| `Views.Sort` | src/App.tsx:426 | defines the sort of the distinct names, by insertion; `SortSpec` states its contract |
| `Views.PartnerList` | src/App.tsx:423-426 | defines the partner selector: the distinct non-empty partners, sorted; `PartnerListSpec` states its contract |
| `Views.InsertPermutes` | src/App.tsx:423-426 | inserting a name adds exactly that name |
| `Views.InsertSorted` | src/App.tsx:423-426 | inserting into an ascending list keeps it ascending |
| `Views.InsertDistinct` | src/App.tsx:423-426 | inserting a new name into a repeat-free list keeps it repeat-free |
| `Views.SortSpec` | src/App.tsx:423-426 | the sort returns an ascending permutation of its input |
| `Views.SortDistinct` | src/App.tsx:423-426 | sorting a repeat-free list keeps it repeat-free |
| `Views.PartnerListSpec` | src/App.tsx:423-426 | the selector lists every non-empty partner and nothing else, once each, in strictly ascending order |
| `Views.HeadIsLeast` | src/App.tsx:423-426 | the first entry of a strictly ascending list precedes every other entry |
| `Views.StrictlyAscendingUnique` | src/App.tsx:423-426 | two strictly ascending lists with the same names are equal |
| `Views.PartnerListIgnoresOrder` | src/App.tsx:423-426 | the selector does not depend on the order of the loaded records |
| `Views.RecordsOf` | src/App.tsx:429-431 | the partner's records are exactly the records with that partner, with their multiplicities |
| `Views.Sum` | src/App.tsx:437-439 | defines a column's sum over a list of records, the `reduce` from 0 |
| `Views.PartnerStats` | src/App.tsx:435-440 | defines the statistics panel; `PartnerStatsSpec` states its contract |
| `Views.SumOfRecordsOf` | src/App.tsx:436-439 | a column summed over the filtered records equals the sum over all records with that partner |
| `Views.CountOfRecordsOf` | src/App.tsx:436 | the number of filtered records is the number of records with that partner |
| `Views.PartnerStatsSpec` | src/App.tsx:435-440 | the panel counts the partner's records and sums their entries, exits and totals |
| `Views.SumAppend` | src/App.tsx:437-439 | a sum over two concatenated lists is the sum of the two sums |
| `Views.SumRemove` | src/App.tsx:437-439 | taking one record out of a sum subtracts its value |
| `Views.SumPermutation` | src/App.tsx:437-439 | a sum does not depend on the order of the records |
| `Views.PartnerStatsIgnoreOrder` | src/App.tsx:429-440 | the panel depends only on which records are loaded, so the date sort changes no total |

## Left out

- Every call to the remote database (load, insert, update, bulk delete, exit-detail queries) is left out. This includes the best-effort per-record update inside the recompute loop, which the model drops as an effect with no result. Record identifiers exist only for these calls, so records carry none.
- The browser's constraint validation of the create form is left out. That validation requires the partner and the date, keeps the amounts non-negative, takes entries and exits whole, and takes money amounts in steps of 0.01 (src/App.tsx:557-664). `Submit.NewRecord` models the submit handler alone, so it accepts inputs that validation blocks. For every form that reaches the handler, validation guarantees two requirements of `Submit.PreviewAgreesWithRecompute`: a date is set and the freight is non-negative. The live preview and the in-place edit row are not behind this validation, so their amounts may be negative, as the model allows.
- The commission's round trip through `toString` and `parseFloat` when an edit is saved is taken to be exact.
- React state, effects, event handlers, the online/offline listeners, the selection of a first partner after load, and the exit-reason, exit-detail and sales-table modals are user interface and are left out.
- The load-time `|| 0` defaults for missing database columns are left out, because records are modelled with every field present.
- The date-descending sort of the selected partner's records is left out, because it parses dates with `new Date`. `Views.PartnerStatsIgnoreOrder` shows that it cannot change the statistics.
- Currency formatting, rounding and locale display are left out.
- `parseFloat` string parsing and IEEE floating point are not modelled. Numbers are exact reals, and a non-numeric field is given as `None`.
- The `try`/`catch` blocks around the preview arithmetic are not modelled, because JavaScript arithmetic does not throw.
- Text.UpperChar: upper-cases only ASCII letters; `toUpperCase` on other scripts, including changes of length such as `ß` → `SS`, is not modelled.
- Text.Less: compares Unicode scalar values, whereas `Array.prototype.sort` compares UTF-16 code units; the two orders differ only for characters outside the Basic Multilingual Plane.
