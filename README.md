# Prompt templates and tags: a Dafny model

This project models the server-side bookkeeping of the prompt-template feature of
generative-ai-use-cases-jp, plus two small pieces of its web client.

Prompt templates live in a DynamoDB template table, keyed by `(id, templateid)`:

- a template's **primary row** sits at `("template#" + uuid, uuid)`;
- each of its tags has an **association row** at `("tag#" + tagId, templateid)`. That row carries the template's `createdDate` and `copycount`, so the two local secondary indexes can list a tag's templates by date or by popularity.

A tag table, keyed by tag name, holds each tag's surrogate `tagid`, the partition `gsi_pk = "templateCount"` of a usage index, and the usage counter `gsi_sk`. Three tags are **protected**: 営業, デザイナー and マーチャンダイザー are seeded at start-up and never deleted.

The model has these parts:

- **The tables and records as values** (`Records`, `StoreWrites`).
  - A template's `tags` object is a sequence of `tagId: name` entries, kept in insertion order.
  - The template table is written through a sequence of checked writes. The first failing write (a status other than 200) ends the sequence with `false`. Nothing written before it is rolled back.
  - The set `failed` of keys whose write fails is a parameter.
- **The handlers' inner functions as functions of both tables.** Each one's properties are proved as lemmas:
  - tag resolution, with the create and update copies' different counter policies (`TagResolution`);
  - the live recount (`Reconciliation`);
  - create, update, delete and the copy-count increment (`CreateTemplate`, `UpdateTemplate`, `DeleteTemplate`, `CopyCount`);
  - the tag-table seed (`SeedTags`);
  - the tag listing (`TemplateListing`), with its two store calls as function parameters.
- **The mutable store**: class `TemplateDatabase.Database`. Its methods are the source's step-by-step loops, one store call per iteration with early `return false`. Each method is proved to end in exactly the state, and return exactly the value, of the function above.
- **The client pieces.**
  - The text helpers (`TemplateUtils`).
  - The create dialog's validation, tag-input state and request building (`CreateDialog`, class `Dialog`).

Notable behaviour of the code:

- An update puts the association row of every tag it keeps again, with the new date and the stored copy count.
- An update leaves the counter of a known tag alone during resolution. It then sets the counter of every affected tag to a live recount of that tag's association partition.
- Only a create adds one to a counter, once per occurrence of the name in the request.

Consequences of the code as written, proved:

- A name repeated in one create request counts twice, but gets one record entry and one association (`CreateTemplate.RepeatedNameDrift`).
- `SET` on a missing row upserts:
  - a recount of a tag with no row creates a bare row with no `tagid` and no `gsi_pk`;
  - a copy-count write to a missing association creates it with no date.
- A primary key whose row has no `tags` makes `Object.keys(undefined)` throw after the first write. The handler then answers 500, and the write already done stays.

## Model

| member | source | states |
|---|---|---|
| Records.PrimaryIsNotAssociation | packages/cdk/lib/construct/template.ts:39-48 | a primary key ("template#"…) never equals an association key ("tag#"…) |
| Records.AssocKeyInjective | packages/cdk/lambda/createTemplate.ts:111-112 | an association key determines its tag id and template id |
| Records.Lookup | packages/cdk/lambda/updateTemplate.ts:183 | reading `tags[id]` finds a value iff the id is a key of the record, and the entry is in the record |
| Records.Assign | packages/cdk/lambda/createTemplate.ts:74 | `tagsRecord[tagId] = name` adds the id to the keys and introduces no entry other than `tagId: name` |
| Records.AssignKeepsDistinct | packages/cdk/lambda/createTemplate.ts:74 | assignment keeps the record's keys distinct |
| Records.AssignLookup | packages/cdk/lambda/createTemplate.ts:74 | after `r[id] = name`, reading `id` gives `name` and every other key reads as before |
| Records.AssociationsMatchLocal | packages/cdk/lib/construct/template.ts:39-48 | whether a template's associations match its tags depends on that template's rows only |
| StoreWrites.ApplyWritesStops | packages/cdk/lambda/createTemplate.ts:101-123 | a checked write sequence applies exactly the writes before the first failing one, without rollback, and reports success iff none failed |
| StoreWrites.ApplyWritesOutside | packages/cdk/lambda/deleteTemplate.ts:49-63 | a key that no write of the sequence names is unchanged, whether the sequence fails or not |
| StoreWrites.ApplyAllDistinct | packages/cdk/lambda/updateTemplate.ts:188-220 | with pairwise distinct keys, every written key ends as its write says (put, upsert of copycount, delete) and other keys are untouched |
| TagResolution.Resolve | packages/cdk/lambda/createTemplate.ts:25-78 | the resolution loop: the tag table and tag record after resolving the names in order, under the create or the update counter policy; its properties are the lemmas below |
| TagResolution.ResolveCounts | packages/cdk/lambda/createTemplate.ts:29-75 | the tag row of every name after `getAndGenerateTagIds`. A known name keeps id and partition, and its counter grows by one per occurrence under the create policy and not at all under the update policy. An unknown name gets the uuid of its first occurrence, `gsi_pk` "templateCount" and counter 1, plus one per later occurrence under the create policy. No other name gains a row. |
| TagResolution.ResolveRecord | packages/cdk/lambda/createTemplate.ts:28-77 | with fresh uuids and unique stored ids, the record stays consistent with the tag table: its ids are distinct and every entry is an input name or was there before |
| TagResolution.ResolvedRecordNames | packages/cdk/lambda/updateTemplate.ts:25-64 | resolution from an empty record gives a record whose names are exactly the distinct input names, with distinct ids and names, each id being its name's stored id |
| TagResolution.CoveredDistinctNames | packages/cdk/lambda/createTemplate.ts:44 | entries whose ids are their names' stored ids have distinct names when their ids are distinct |
| Reconciliation.Reconcile | packages/cdk/lambda/updateTemplate.ts:67-129 | the recount loop over the record's entries in order: the tag table afterwards; its properties are the lemmas below |
| Reconciliation.ReconcileSettles | packages/cdk/lambda/updateTemplate.ts:73-128 | after the recount loop, an entry not repeated later is settled: a protected name, or one with live count > 0, has a row whose counter is the live count; any other name has no row |
| Reconciliation.ReconcileSettlesAll | packages/cdk/lambda/deleteTemplate.ts:67-122 | with distinct names every entry of the record is settled |
| Reconciliation.ReconcileUntouched | packages/cdk/lambda/updateTemplate.ts:73-128 | a name no entry carries keeps its tag row, or its absence |
| Reconciliation.ReconcileKeepsProtected | packages/cdk/lambda/updateTemplate.ts:85-99 | a protected name's row is never deleted and changes only in its counter (its id and partition stay) |
| Reconciliation.ReconcileConcat | packages/cdk/lambda/updateTemplate.ts:223-224 | recounting a concatenation is recounting one part, then the other |
| Reconciliation.ReconcileTwice | packages/cdk/lambda/updateTemplate.ts:223-224 | after recounting the dropped tags and then the new tags, every new tag is settled, and so is every dropped tag not renamed into the new set; all other names are unchanged |
| CreateTemplate.Store | packages/cdk/lambda/createTemplate.ts:80-124 | `createTemplate`: the template table and the returned flag after the checked primary put and association puts |
| CreateTemplate.ResolveTags | packages/cdk/lambda/createTemplate.ts:145-149 | the create handler's tag resolution: the create policy for a public body, no tags and an unchanged tag table otherwise |
| CreateTemplate.BuildRequest | packages/cdk/lambda/createTemplate.ts:151-163 | the stored request: key "template#"+uuid, templateid uuid, copy count 0, `gsi_pk` "userid", `gsi_sk` userId#timestamp, date timestamp |
| CreateTemplate.Handle | packages/cdk/lambda/createTemplate.ts:127-204 | the create handler: resolution, then `createTemplate`, answering 200 with the request or 500 |
| CreateTemplate.StoreOutcome | packages/cdk/lambda/createTemplate.ts:80-124 | a failed primary put leaves the table unchanged with `false`. Otherwise the primary and the associations of the first m tags are written, all older rows are kept, and the result is true iff m is all tags; when m is short, tag m's association write failed. |
| CreateTemplate.StoreEstablishesAssociations | packages/cdk/lambda/createTemplate.ts:107-123 | a successful create of a fresh uuid establishes exactly one association per tag id, each with the primary's date and copy count, and keeps every existing row |
| CreateTemplate.HandlePrivate | packages/cdk/lambda/createTemplate.ts:145-149 | a non-public create leaves the tag table unchanged and stores the template with no tags |
| CreateTemplate.HandleOutcome | packages/cdk/lambda/createTemplate.ts:133-203 | the new tag table is the resolved one, and the status is 200 iff every write succeeded, else 500. On 200: the stored request has `id` "template#"+uuid, `templateid` uuid, copy count 0, `gsi_pk` "userid", `gsi_sk` userId#timestamp and date timestamp; its tag names are the distinct input names (none when private); the associations match. |
| CreateTemplate.RepeatedNameDrift | packages/cdk/lambda/createTemplate.ts:29-75 | a request naming one new tag twice leaves that tag's counter at 2 with a single record entry |
| UpdateTemplate.Store | packages/cdk/lambda/updateTemplate.ts:132-227 | `updateTemplate`: both tables and the returned flag after the read, the primary put, the association puts and deletes, and the two recounts |
| UpdateTemplate.ResolveTags | packages/cdk/lambda/updateTemplate.ts:246-250 | the update handler's tag resolution: the update policy for a public body, no tags and an unchanged tag table otherwise |
| UpdateTemplate.BuildRequest | packages/cdk/lambda/updateTemplate.ts:252-263 | the stored request: the body's key, date timestamp, `gsi_pk` "userid", `gsi_sk` userId#timestamp |
| UpdateTemplate.Handle | packages/cdk/lambda/updateTemplate.ts:230-300 | the update handler: resolution, then `updateTemplate`, answering 200 with the request or 500 |
| UpdateTemplate.DeletedTags | packages/cdk/lambda/updateTemplate.ts:180-185 | the dropped entries are exactly the stored entries whose id is not among the new ids, with their stored names |
| UpdateTemplate.DeletedTagsDistinct | packages/cdk/lambda/updateTemplate.ts:180-185 | the dropped entries keep the stored record's distinct ids and names |
| UpdateTemplate.DeletedAll | packages/cdk/lambda/updateTemplate.ts:246-250 | against an empty new record every stored entry is dropped |
| UpdateTemplate.StoreFailures | packages/cdk/lambda/updateTemplate.ts:136-175 | a missing stored row, or a failed primary put, returns false with nothing changed. A stored row that is an association row, and so has no `tags`, fails. Any failure skips the recount, and other templates' rows never change. |
| UpdateTemplate.StoreOutside | packages/cdk/lambda/updateTemplate.ts:154-220 | every write of an update stays inside the updated template's rows |
| UpdateTemplate.AllWritesApplied | packages/cdk/lambda/updateTemplate.ts:188-220 | after all association writes, the new tag ids have associations carrying the new date and the given copy count, the dropped ones are gone, and nothing else changed |
| UpdateTemplate.StoreKeepsAssociations | packages/cdk/lambda/updateTemplate.ts:155-220 | a successful update of a consistent template leaves it consistent, with the new primary holding the stored copy count |
| UpdateTemplate.StoreReconciles | packages/cdk/lambda/updateTemplate.ts:222-224 | after a successful update every new tag and every dropped tag not renamed is settled against the final table, and no other tag changes |
| UpdateTemplate.HandleOutcome | packages/cdk/lambda/updateTemplate.ts:236-263 | a private update resolves nothing. Resolution keeps every existing tag row as it was and gives each new name a row with counter 1. `createdDate` and `gsi_sk` come from the update's timestamp, status 200 iff the store succeeded, else 500. |
| UpdateTemplate.PrivateUpdateClears | packages/cdk/lambda/updateTemplate.ts:246-250 | a successful private update leaves only the primary row of the template and settles every previously stored tag |
| DeleteTemplate.Store | packages/cdk/lambda/deleteTemplate.ts:9-125 | `deleteTemplate`: both tables and the returned flag after the read, the primary delete, the association deletes and the recount |
| DeleteTemplate.Handle | packages/cdk/lambda/deleteTemplate.ts:127-172 | the delete handler: a missing path parameter becomes "", and the status is 200 when `deleteTemplate` returns true, else 500 |
| DeleteTemplate.StoreOutcome | packages/cdk/lambda/deleteTemplate.ts:49-63 | once the primary is deleted, the association deletes before the first failing one are done and stay done. The flag is true iff none failed, and when one fails, that entry's association key is among the failing keys. A failure leaves the tag table unchanged. With distinct ids, exactly the primary and those associations are gone. |
| DeleteTemplate.StoreFailures | packages/cdk/lambda/deleteTemplate.ts:14-63 | a missing primary or a failed primary delete changes nothing. Once deleted, the primary stays gone whatever fails later. A failure leaves the tag table unchanged, and other templates' rows are untouched. |
| DeleteTemplate.AllDeletesApplied | packages/cdk/lambda/deleteTemplate.ts:35-63 | after a successful delete the table is the old one minus the primary and the template's association keys |
| DeleteTemplate.StoreRemovesTemplate | packages/cdk/lambda/deleteTemplate.ts:35-63 | a successful delete of a consistent template leaves no row of it |
| DeleteTemplate.StoreReconciles | packages/cdk/lambda/deleteTemplate.ts:67-122 | after a successful delete every former tag is settled. A protected tag keeps its row and id even at count 0. Tags not on the template are untouched. |
| CopyCount.Store | packages/cdk/lambda/incrementalTemplateCopycount.ts:9-76 | `updateTemplate` of the copy-count Lambda: the template table and the returned flag after the read, the increment and the association updates |
| CopyCount.Handle | packages/cdk/lambda/incrementalTemplateCopycount.ts:79-125 | the copy-count handler: 200 when the increment and every propagation succeed, else 500; the tag table is not touched |
| CopyCount.StoreOutcome | packages/cdk/lambda/incrementalTemplateCopycount.ts:54-74 | once the primary's count is raised, the association updates before the first failing one are done and stay done. The flag is true iff none failed, and when one fails, that entry's association key is among the failing keys. With distinct ids, those associations hold the new count and every other row keeps its value. |
| CopyCount.StoreFailures | packages/cdk/lambda/incrementalTemplateCopycount.ts:13-73 | a missing template or an update returning no attributes changes nothing. Once done, the increment persists whatever fails later, and other templates' rows are untouched. |
| CopyCount.StorePropagates | packages/cdk/lambda/incrementalTemplateCopycount.ts:32-75 | on success the primary's copy count is one higher and each stored tag's association holds the new value (created when missing). No key is added outside those rows. |
| CopyCount.StoreKeepsInSync | packages/cdk/lambda/incrementalTemplateCopycount.ts:54-75 | a successful increment of a consistent template keeps it consistent: no row is added or removed, and each row changes in its copy count only, to the old count + 1 |
| SeedTags.Seed | packages/cdk/lambda/initTemplateDatabase.ts:17-25 | the three seed puts, in list order, over the tag table |
| SeedTags.PutAllLast | packages/cdk/lambda/initTemplateDatabase.ts:23-25 | a put sequence gives a name the row of its last put |
| SeedTags.PutAllOthers | packages/cdk/lambda/initTemplateDatabase.ts:23-25 | a name no put of the sequence names keeps its row, or its absence |
| SeedTags.SeedState | packages/cdk/lambda/initTemplateDatabase.ts:17-25 | after seeding, デザイナー, 営業 and マーチャンダイザー hold ids …0001, …0002 and …0003, `gsi_pk` "templateCount" and count 0. Every other name keeps its row. The seeded names are exactly the protected names. |
| SeedTags.SeedIdempotent | packages/cdk/lambda/initTemplateDatabase.ts:23-25 | seeding twice is seeding once |
| TemplateListing.GetTemplatesByTag | packages/cdk/lambda/getTemplateByTag.ts:37-108 | `getTemplatesByTag`: the query, the early empty answer, the batch get and the sort, rethrowing a store failure |
| TemplateListing.Handle | packages/cdk/lambda/getTemplateByTag.ts:111-165 | the listing handler: the query-string tag and sort order, answering 200 with the page or 500 |
| TemplateListing.BatchKeys | packages/cdk/lambda/getTemplateByTag.ts:74-79 | one batch key ("template#"+templateid, templateid) per association, in association order |
| TemplateListing.IndexOf | packages/cdk/lambda/getTemplateByTag.ts:97 | the first position of the id, or -1 exactly when absent |
| TemplateListing.SortByAssociation | packages/cdk/lambda/getTemplateByTag.ts:96-98 | the sorted templates are a permutation of the fetched ones, ordered by their association's position |
| TemplateListing.Param | packages/cdk/lambda/getTemplateByTag.ts:116-125 | a query-string parameter counts iff present and non-empty |
| TemplateListing.QueryShape | packages/cdk/lambda/getTemplateByTag.ts:43-56 | "createdDate" selects the creation-date index with limit 10, and any other or missing order the copy-count index with limit 3. Only partition "tag#"+tagid is read, descending, after the cursor. |
| TemplateListing.EmptyPage | packages/cdk/lambda/getTemplateByTag.ts:65-70 | an empty page answers no templates with the store's cursor, whatever the batch would answer |
| TemplateListing.NonEmptyPage | packages/cdk/lambda/getTemplateByTag.ts:74-103 | the answer holds exactly the fetched templates (none without `Responses`), in association order, with the store's cursor |
| TemplateListing.OrderFollowsAssociations | packages/cdk/lambda/getTemplateByTag.ts:96-98 | of two answered templates with different ids, the earlier one's association comes earlier |
| TemplateListing.WithinLimit | packages/cdk/lambda/getTemplateByTag.ts:51 | provided the store honours the limit and answers each requested key at most once, a page holds at most the limit of templates |
| TemplateListing.StoreFailure | packages/cdk/lambda/getTemplateByTag.ts:104-107 | the handler answers 500 exactly when the query, or the batch of a non-empty page, throws |
| TemplateUtils.TruncateText | packages/web/src/utils/TemplateUtils.tsx:14-15 | a text within the limit is unchanged. A longer one keeps a prefix of `maxLength` characters followed by "...", so its length is `maxLength`+3. A negative limit keeps only "...". |
| TemplateUtils.TruncateDefault | packages/web/src/utils/TemplateUtils.tsx:14 | the default limit is 300 |
| TemplateUtils.Split | packages/web/src/utils/TemplateUtils.tsx:5 | at least one line, and no line contains the separator |
| TemplateUtils.RenderWithLineBreaks | packages/web/src/utils/TemplateUtils.tsx:4-11 | the lines rendered, each followed by a line break: the text split at '\n' |
| TemplateUtils.SplitCount | packages/web/src/utils/TemplateUtils.tsx:5 | there are as many lines as separators plus one |
| TemplateUtils.JoinSplit | packages/web/src/utils/TemplateUtils.tsx:5 | joining the lines with the separator gives back the text |
| TemplateUtils.SplitJoin | packages/web/src/utils/TemplateUtils.tsx:5 | splitting the join of separator-free lines gives back the lines |
| CreateDialog.TrimEmpty | packages/web/src/pages/TemplatesCreateModalWindow.tsx:49 | a trimmed text is empty iff the text is all JavaScript white space |
| CreateDialog.IsFormValid | packages/web/src/pages/TemplatesCreateModalWindow.tsx:48-50 | `isFormValid`: trimmed title and prompt non-empty and a share setting chosen |
| CreateDialog.FormValidity | packages/web/src/pages/TemplatesCreateModalWindow.tsx:48-50 | the form is valid iff title and prompt each hold a visible character and a share setting is chosen |
| CreateDialog.NonBlank | packages/web/src/pages/TemplatesCreateModalWindow.tsx:71 | the filter keeps exactly the non-blank inputs |
| CreateDialog.NonBlankConcat | packages/web/src/pages/TemplatesCreateModalWindow.tsx:71 | the filter keeps the non-blank inputs in their order |
| CreateDialog.WithoutIndexRemoves | packages/web/src/pages/TemplatesCreateModalWindow.tsx:249 | clearing index i removes exactly that entry and keeps the others in order |
| CreateDialog.Dialog.constructor | packages/web/src/pages/TemplatesCreateModalWindow.tsx:28-40 | the dialog starts with empty title, prompt and use case, the "private" setting and no tag inputs |
| CreateDialog.Dialog.AddTagInput | packages/web/src/pages/TemplatesCreateModalWindow.tsx:53-59 | below five inputs exactly one "" is appended; at five the list is unchanged and an alert is raised; never more than five |
| CreateDialog.Dialog.EditTag | packages/web/src/pages/TemplatesCreateModalWindow.tsx:237-241 | editing index i replaces only that entry |
| CreateDialog.Dialog.ClearTag | packages/web/src/pages/TemplatesCreateModalWindow.tsx:246-250 | clearing index i removes only that entry |
| CreateDialog.Dialog.BuildRequest | packages/web/src/pages/TemplatesCreateModalWindow.tsx:65-81 | private sends no tags. Public with a non-blank use case sends the non-blank inputs in order, then the use case, at most 6 tags. Anything else sends the raw inputs. `public` is true iff the setting is "public". |
| TemplateDatabase.Database.constructor | packages/cdk/lib/construct/template.ts:39-114 | the store holds the given tables |
| TemplateDatabase.Database.Send | packages/cdk/lambda/createTemplate.ts:101-104 | a checked write applies iff its status is 200 and never touches the tag table |
| TemplateDatabase.Database.GetAndGenerateTagIds | packages/cdk/lambda/createTemplate.ts:25-78 | the loop ends with exactly the tag table and record of `TagResolution.Resolve` |
| TemplateDatabase.Database.CreateTemplate | packages/cdk/lambda/createTemplate.ts:80-124 | the loop ends with exactly the table and flag of `CreateTemplate.Store` |
| TemplateDatabase.Database.UpdateTemplateCount | packages/cdk/lambda/updateTemplate.ts:67-129 | the loop ends with exactly the tag table of `Reconciliation.Reconcile`; the template table is unchanged |
| TemplateDatabase.Database.PutAssociations | packages/cdk/lambda/updateTemplate.ts:188-204 | the put loop ends as the checked association puts |
| TemplateDatabase.Database.DeleteAssociations | packages/cdk/lambda/deleteTemplate.ts:49-63 | the delete loop ends as the checked association deletes |
| TemplateDatabase.Database.UpdateTemplate | packages/cdk/lambda/updateTemplate.ts:132-227 | ends with exactly the tables and flag of `UpdateTemplate.Store` |
| TemplateDatabase.Database.DeleteTemplate | packages/cdk/lambda/deleteTemplate.ts:9-125 | ends with exactly the tables and flag of `DeleteTemplate.Store` |
| TemplateDatabase.Database.IncrementCopycount | packages/cdk/lambda/incrementalTemplateCopycount.ts:9-76 | ends with exactly the table and flag of `CopyCount.Store`; the tag table is unchanged |
| TemplateDatabase.Database.InitTagTable | packages/cdk/lambda/initTemplateDatabase.ts:17-25 | ends with exactly the tag table of `SeedTags.Seed` |
| TemplateDatabase.Database.HandleCreate | packages/cdk/lambda/createTemplate.ts:127-204 | ends with exactly the tables and response of `CreateTemplate.Handle` |
| TemplateDatabase.Database.HandleUpdate | packages/cdk/lambda/updateTemplate.ts:230-263 | ends with exactly the tables and response of `UpdateTemplate.Handle` |
| TemplateDatabase.Database.HandleDelete | packages/cdk/lambda/deleteTemplate.ts:127-147 | ends with exactly the tables and status of `DeleteTemplate.Handle` |
| TemplateDatabase.Database.HandleIncrement | packages/cdk/lambda/incrementalTemplateCopycount.ts:79-110 | ends with exactly the tables and status of `CopyCount.Handle` |

## Left out

- I/O and handler plumbing are not modelled:
  - logging, headers and response messages;
  - JSON parsing of the request body: the body's fields are taken as present and well typed;
  - Cognito claims: the user id and mail address are parameters.
- Generated values and time are parameters: the template uuid, the per-name tag uuids and the timestamp. Their freshness is a precondition where a property needs it (`CreateTemplate.Unused`, `TagResolution.FreshUuids`).
- A store call can throw for reasons outside the program, such as the network or throttling. This is not modelled. The handler's `catch` path is modelled only where the code itself throws: a row without `tags` at the template key.
- Tag-table writes are not status-checked by the code, so the model treats them as always succeeding.
- Concurrency is not modelled; each request runs alone. That includes races between Lambdas creating the same tag and counters read stale.
- `Reconciliation.Recount` and `Reconciliation.Partition` count a tag's whole association partition. A DynamoDB `Query` returns at most 1 MB per page, and the code reads only the first page.
- TemplateListing.GetTemplatesByTag: the query and the batch get are store calls passed in as function parameters. How DynamoDB answers them (index order, `Limit`, `UnprocessedKeys`, the 100-key batch limit, a missing `Items`) is not modelled. `TemplateListing.WithinLimit` states the page bound under explicit hypotheses about the store.
- Cursors (`LastEvaluatedKey`) are an opaque value. Their base64/URI/JSON encoding and decoding are not modelled, and neither is a decode error that occurs outside the handler's `try`.
- TemplateListing.SortByAssociation: `Array.prototype.sort` is modelled as a stable insertion sort by the comparator's key. Stability among rows with equal positions is not stated.
- CopyCount.Store: the `if_not_exists(copycount, 0)` default is not modelled, because every primary row carries a copy count. "No attributes returned" is modelled as the primary key being among the failing writes.
- TemplateUtils.TruncateText: JavaScript's `length` and `substring` count UTF-16 code units, but the model counts Unicode characters. The two agree on text inside the Basic Multilingual Plane.
- TemplateUtils.RenderWithLineBreaks: the React fragments and `<br />` elements are not modelled, only the lines they render.
- The dialog's JSX and the `alert` popup are not modelled. The alert is the `alerted` result of `CreateDialog.Dialog.AddTagInput`.
- JavaScript orders integer-like object keys before other keys. Tag ids are uuids, which are not integer-like, so insertion order is the model's key order.
