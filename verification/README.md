# Decision and traversal logic of six Oro platform components, in Dafny

This project models six pieces of the Oro platform (PHP) that hold real control flow. Their
framework collaborators are replaced by parameters: Doctrine, Zend Mail headers, the
translator, templating and the authorization checker. The six pieces are:

- **DataGrid mass delete** (`mass_delete.dfy`, module `MassDelete`). This is
  `DeleteMassActionHandler`: dispatch on the HTTP method, read the `entity_name` and
  `data_identifier` options, and run the deletion loop.
  - The loop skips entities the user may not delete. It flushes and clears the entity
    manager after every 100 removals, and once more for a partial batch.
  - The entity manager is the trace of `remove`/`flush`/`clear` calls it receives.
  - `isGranted('DELETE', entity)` and `getReference(entityName, id)` are function parameters.
  - The loop method `RemoveGranted` is proved against the recursive specification
    `DeletedEntities`/`DeleteEvents`. Lemmas then give the removal order, the flush count
    ceil(n/100), "nothing left unflushed" and "only granted entities are removed".
- **IMAP message walker** (`mime_message.dfy`, module `MimeMessage`). This is
  `Oro\Bundle\ImapBundle\Mail\Storage\Message`, walking a MIME tree as in section 5.1 of RFC 2046.
  - A `Part` is a leaf with a parsed Content-Type (media type and `name` parameter) and an
    optional Content-Disposition, or a multipart with sub-parts.
  - The loops of the source become recursive functions over (children, index, accumulator).
  - Lemmas restate both results over the depth-first list of leaves. Attachments are exactly
    the attachment leaves, each once, with nested multiparts' attachments first. The
    preferred content type is the first `text/html` leaf, else the last `text/plain` leaf.
- **Extended associations** (`extended_associations.dfy`, module `ExtendedAssociations`).
  This is the `BuildExtendedAssociations` processor of the API "customize loaded data"
  action, as its unit test pins it.
  - Fields typed `association:<kind>:<label>` that are not excluded and not yet in the data
    are filled in from the fields the association manager maps to each target class.
  - `manyToOne` gives the first non-null field as `{__class__, id}`, or null. `manyToMany` gives
    one reference per list item. `multipleManyToOne` gives one reference per non-null field,
    `[]` when none. An unknown kind throws.
  - The association manager is the function `targetsOf`. The context is a class whose
    result the processor replaces.
- **Save ORM entity** (`save_orm_entity.dfy`, module `SaveOrmEntity`). This is the create
  action's `SaveOrmEntity` processor, as its unit test pins it: the exact trace of
  `getEntityManager`, `persist` and `flush` calls.
- **JS translation controller** (`js_translation.dfy`, module `JsTranslation`).
  - Constructor validation of the template.
  - Defaulting of the `domains` and `debug` options.
  - The JSON structure (`locale`, `defaultDomain`, optional `debug`, and translations under
    one locale key) that is handed to the template. It is built by a loop with invariants.
- **Email attachment gate** (`email_attachment_gate.dfy`, module `EmailAttachmentGate`).
  This is `DisableEmailAttachmentCreation`: access is denied on the master request.

`php_values.dfy` (module `PhpValues`) holds `Option`, `Result` and PHP's truthiness of
strings. In PHP, `!$s` holds for both `""` and `"0"`; the model keeps that for
`entity_name`, `data_identifier`, the template name and the default domain.

The source of `BuildExtendedAssociations` and `SaveOrmEntity` is not part of this model.
Only their unit tests are, so the model follows what the tests assert. Where a test leaves
a choice open, the model takes the following reading:
- A field counts as "already set" when its key is present in the data (`array_key_exists`).
- A to-many field contributes one reference per item of its list.
- The `id` of a reference is the item's `id` key (null when there is none).
- The data type is split as `explode(':', $dataType, 3)` would split it. The label is
  everything after the second colon, and null when there is no second colon.

## Model

| member | source | states |
|---|---|---|
| `MassDelete.Handle` | src/Oro/Bundle/DataGridBundle/Extension/MassAction/DeleteMassActionHandler.php:58-72 | POST answers a successful "OK" response carrying selected/deletable/max_limit and touches no entity. DELETE runs `doDelete`. Any other method answers unsuccessfully with `Method "<m>" is not supported`. |
| `MassDelete.GetEntityName` | src/Oro/Bundle/DataGridBundle/Extension/MassAction/DeleteMassActionHandler.php:143-152 | A missing or falsy `entity_name` (null, "" or "0") throws `Mass action "<name>" must define entity name`; otherwise the name is returned. |
| `MassDelete.AfterLastDot` | src/Oro/Bundle/DataGridBundle/Extension/MassAction/DeleteMassActionHandler.php:169-172 | The result is a dot-free suffix of the identifier. With a dot, it is preceded by the last dot; without one, it is the whole identifier. |
| `MassDelete.GetEntityIdentifierField` | src/Oro/Bundle/DataGridBundle/Extension/MassAction/DeleteMassActionHandler.php:159-175 | A missing or falsy `data_identifier` throws `Mass action "<name>" must define identifier name`; otherwise the alias prefix is stripped (text after the last dot). |
| `MassDelete.DeleteResponse` | src/Oro/Bundle/DataGridBundle/Extension/MassAction/DeleteMassActionHandler.php:89-105 | The response is successful iff the count is positive, its options hold exactly the count, and the message is the `[messages][success]` translation key (the default key when that option is unset) with that count. |
| `MassDelete.RemoveGranted` | src/Oro/Bundle/DataGridBundle/Extension/MassAction/DeleteMassActionHandler.php:195-218 | The loop returns as its count the number of resolved, granted entities. Its trace of manager calls is the batched removal trace of exactly those entities (flush+clear after each 100th removal, and once at the end for a partial batch). |
| `MassDelete.ScanWithoutManager` | src/Oro/Bundle/DataGridBundle/Extension/MassAction/DeleteMassActionHandler.php:193-209 | With a null manager, the loop fails iff some record needs the manager: one without a root entity (`getReference` on null) or one whose root entity DELETE is granted on (`processDelete` with null). |
| `MassDelete.DoDelete` | src/Oro/Bundle/DataGridBundle/Extension/MassAction/DeleteMassActionHandler.php:182-221 | The entity name is checked first, then the identifier field, both before any manager call. When the registry has no manager for the entity class, the run fails on the first record that needs one; otherwise it removes nothing. The outcome equals the specification `DeleteSpec`. |
| `MassDelete.RemovalEventsFacts` | src/Oro/Bundle/DataGridBundle/Extension/MassAction/DeleteMassActionHandler.php:207-212 | After removing n entities in the loop, each entity has been removed once in order, there have been n/100 flushes, and n mod 100 removals await a flush. |
| `MassDelete.DeleteEventsFacts` | src/Oro/Bundle/DataGridBundle/Extension/MassAction/DeleteMassActionHandler.php:210-218 | A whole run removes each entity once in order and flushes ceil(n/100) times. No removal is left unflushed, and zero removals means no flush at all. |
| `MassDelete.DeletedEntitiesAreGranted` | src/Oro/Bundle/DataGridBundle/Extension/MassAction/DeleteMassActionHandler.php:195-209 | An entity is removed iff DELETE is granted on it and some record resolves to it. A record resolves to its root entity, or else to `getReference(entityName, identifier value)`. No more entities are removed than there are records. |
| `MassDelete.DeleteFailures` | src/Oro/Bundle/DataGridBundle/Extension/MassAction/DeleteMassActionHandler.php:182-209 | A run throws a LogicException iff either option is missing or falsy. It fails with the null-manager error iff both options are set, the registry has no manager for the entity class, and some record either lacks a root entity or has a root entity DELETE is granted on. A failed run, and any run without a manager, makes no manager call. A run without a manager that succeeds reports zero removals, unsuccessfully. |
| `MassDelete.DeleteOutcome` | src/Oro/Bundle/DataGridBundle/Extension/MassAction/DeleteMassActionHandler.php:182-221 | In a run with a manager for the entity class that succeeds, the reported count equals the number of removed entities, all of them granted. Success holds iff the count is positive, there are ceil(count/100) flushes, and nothing is left unflushed. |
| `MimeMessage.GetAttachments` | src/Oro/Bundle/ImapBundle/Mail/Storage/Message.php:35-40 | A message that is not multipart has no attachments; every returned part is an attachment. |
| `MimeMessage.PartAttachment` | src/Oro/Bundle/ImapBundle/Mail/Storage/Message.php:137-154 | A leaf is an attachment iff it has a Content-Type and that header has a `name` parameter or a Content-Disposition is present; the attachment wraps that same part. |
| `MimeMessage.CollectAttachmentsOrder` | src/Oro/Bundle/ImapBundle/Mail/Storage/Message.php:116-131 | From child i on, the loop's result is the attachments of the nested multiparts (last multipart first), then what was collected so far, then the top-level leaf attachments in order. |
| `MimeMessage.AttachmentsAreAttachmentLeaves` | src/Oro/Bundle/ImapBundle/Mail/Storage/Message.php:116-131 | The attachments of a multipart are exactly its attachment leaves, one per leaf (equal multisets), and each is an attachment. |
| `MimeMessage.GetAttachmentsSpec` | src/Oro/Bundle/ImapBundle/Mail/Storage/Message.php:35-40 | A single part has no attachments. A multipart has exactly its attachment leaves, with all nested multiparts' attachments before the top-level leaves' attachments. |
| `MimeMessage.MultiPartPriorContentType` | src/Oro/Bundle/ImapBundle/Mail/Storage/Message.php:87-110 | For a multipart the preferred content type is null, `text/html` or `text/plain` (compared case-insensitively). |
| `MimeMessage.PriorFrom` | src/Oro/Bundle/ImapBundle/Mail/Storage/Message.php:90-109 | The loop over the children returns null or a `text/html`/`text/plain` type, given that the candidate it carries is null or `text/plain`. |
| `MimeMessage.PriorContentType` | src/Oro/Bundle/ImapBundle/Mail/Storage/Message.php:45-52 | A single-part message gives its own Content-Type of any type, or null when the header is absent. A multipart gives null, `text/html` or `text/plain`. |
| `MimeMessage.PriorFromChoice` | src/Oro/Bundle/ImapBundle/Mail/Storage/Message.php:90-109 | From child i on, the loop returns the first `text/html` leaf type in depth-first order. Without one, it returns the last `text/plain` leaf type, and without that the carried candidate. |
| `MimeMessage.MultiPartPriorIsFirstHtmlElseLastPlain` | src/Oro/Bundle/ImapBundle/Mail/Storage/Message.php:87-110 | A multipart's preferred type is the first `text/html` leaf's in depth-first order, else the last `text/plain` leaf's, else null. |
| `MimeMessage.PriorContentTypeChoice` | src/Oro/Bundle/ImapBundle/Mail/Storage/Message.php:94-109 | For a multipart message the result is `text/html` iff some leaf of the tree has a `text/html` Content-Type (the first such is returned); otherwise it is the last `text/plain` leaf's type or null. |
| `ExtendedAssociations.ParseExtendedAssociation` | src/Oro/Bundle/ApiBundle/Tests/Unit/Processor/CustomizeLoadedData/BuildExtendedAssociationsTest.php:146-150 | Only `association:`-prefixed data types parse. The data type is the prefix, the colon-free kind, and `:<label>` when a label is present. |
| `ExtendedAssociations.Process` | src/Oro/Bundle/ApiBundle/Tests/Unit/Processor/CustomizeLoadedData/BuildExtendedAssociationsTest.php:30-63 | Without a result, with a result that is not an associative array (a list is skipped too) or without a config, nothing changes and the manager is not asked. On success the result becomes the built data; after a failure the result is left as it was. |
| `ExtendedAssociations.NothingPendingLeavesDataUnchanged` | src/Oro/Bundle/ApiBundle/Tests/Unit/Processor/CustomizeLoadedData/BuildExtendedAssociationsTest.php:46-113 | When no field is a pending association, the data is unchanged and `getAssociationTargets` is never called. A field is not pending when it has no `association:` type, is excluded, or is already in the data. |
| `ExtendedAssociations.BuildFromFrame` | src/Oro/Bundle/ApiBundle/Tests/Unit/Processor/CustomizeLoadedData/BuildExtendedAssociationsTest.php:139-170 | Keys already in the data keep their values, and every new key is a pending field. There is at most one manager call per field, each with the entity class and a null join class. A failure names an unsupported kind. |
| `ExtendedAssociations.SinglePendingField` | src/Oro/Bundle/ApiBundle/Tests/Unit/Processor/CustomizeLoadedData/BuildExtendedAssociationsTest.php:115-150 | One pending field makes exactly one call (className, null, kind, label). An unknown kind then throws "Unsupported type of extended association: <kind>.". A known kind adds only the association key, leaving the other keys untouched. |
| `ExtendedAssociations.ManyToOneIsFirstNonNull` | src/Oro/Bundle/ApiBundle/Tests/Unit/Processor/CustomizeLoadedData/BuildExtendedAssociationsTest.php:139-200 | The to-one value is `{__class__: target, id}` of the first non-null mapped field in mapping order, and null when there is none. |
| `ExtendedAssociations.ManyToOneNullIffAllNull` | src/Oro/Bundle/ApiBundle/Tests/Unit/Processor/CustomizeLoadedData/BuildExtendedAssociationsTest.php:139-200 | The to-one value is null iff every mapped field is null. |
| `ExtendedAssociations.ManyToManyCollectsItems` | src/Oro/Bundle/ApiBundle/Tests/Unit/Processor/CustomizeLoadedData/BuildExtendedAssociationsTest.php:202-272 | The to-many list holds exactly the `{__class__, id}` references of the items of the mapped lists. It is `[]` iff no mapped list is non-empty. |
| `ExtendedAssociations.MultipleManyToOneCollectsNonNull` | src/Oro/Bundle/ApiBundle/Tests/Unit/Processor/CustomizeLoadedData/BuildExtendedAssociationsTest.php:274-344 | The multiple to-one list holds exactly the `{__class__, id}` references of the non-null mapped fields, and is no longer than the mapping. It is `[]` (not null) iff all of them are null. |
| `ExtendedAssociations.MultipleManyToOneAppend` | src/Oro/Bundle/ApiBundle/Tests/Unit/Processor/CustomizeLoadedData/BuildExtendedAssociationsTest.php:274-344 | The multiple to-one list follows mapping order: the list for two mappings joined is the first one's list followed by the second one's. |
| `ExtendedAssociations.MultipleManyToOneSnoc` | src/Oro/Bundle/ApiBundle/Tests/Unit/Processor/CustomizeLoadedData/BuildExtendedAssociationsTest.php:274-344 | Each mapped field adds, at the end of the list, exactly one reference when its value is not null and none when it is null. Together with the append lemma this fixes order and multiplicity. |
| `ExtendedAssociations.ManyToManyAppend` | src/Oro/Bundle/ApiBundle/Tests/Unit/Processor/CustomizeLoadedData/BuildExtendedAssociationsTest.php:202-272 | The to-many list follows mapping order: the list for two mappings joined is the first one's list followed by the second one's. |
| `ExtendedAssociations.ManyToManySnoc` | src/Oro/Bundle/ApiBundle/Tests/Unit/Processor/CustomizeLoadedData/BuildExtendedAssociationsTest.php:202-272 | Each mapped field adds, at the end of the list, one reference per item of its list in list order, and none when the field is not a list. |
| `SaveOrmEntity.Process` | src/Oro/Bundle/ApiBundle/Tests/Unit/Processor/Create/SaveOrmEntityTest.php:28-89 | With errors, no result or an array result, no call is made. For an object there is exactly one `getEntityManager(entity, false)` call. If that returns no manager nothing more happens; otherwise exactly one `persist(entity)` and one `flush(entity)` follow, on that manager and that same entity. |
| `JsTranslation.NewController` | src/Oro/Bundle/TranslationBundle/Controller/Controller.php:40-49 | An empty template, or one that is neither a string nor a template reference, throws InvalidArgumentException. Otherwise the controller keeps the template and the options. |
| `JsTranslation.EffectiveDomains` | src/Oro/Bundle/TranslationBundle/Controller/Controller.php:60 | `domains` defaults to `[]` when unset. |
| `JsTranslation.EffectiveDebug` | src/Oro/Bundle/TranslationBundle/Controller/Controller.php:61 | `debug` defaults to false when unset or null. Otherwise it is cast to bool as PHP does: a boolean is kept, an integer is true iff non-zero, and a string is true iff it is neither `""` nor `"0"`. |
| `JsTranslation.DefaultDomain` | src/Oro/Bundle/TranslationBundle/Controller/Controller.php:82 | The default domain is the first domain, or `''` when the list is empty or the first entry is falsy. |
| `JsTranslation.RenderJsTranslationContent` | src/Oro/Bundle/TranslationBundle/Controller/Controller.php:76-94 | The JSON holds the requested locale and the default domain, and a `debug` key (true) iff debug. `translations` has the single key locale. Under it sit exactly the domains the translator returned, each mapped to its translations unchanged. |
| `JsTranslation.IndexAction` | src/Oro/Bundle/TranslationBundle/Controller/Controller.php:58-66 | The JSON is rendered with the defaulted `domains` and `debug` options for the requested locale. |
| `EmailAttachmentGate.Process` | src/Oro/Bundle/EmailBundle/Api/Processor/DisableEmailAttachmentCreation.php:18-27 | Access is denied iff the context is the master request, with exactly the message "Use API resource to create an email. An email attachment can be created only together with an email."; otherwise it returns normally. It only reads the context. |

## Left out

- The mass-delete limiter (`getLimitResult`, `limitQuery`) is left out. The limit result is a parameter, and the records are the sequence the limited query yields.
- `DeletionIterableResult` and its buffer size are left out: iteration is over a sequence.
- `set_time_limit(0)` is ambient process state and is not modelled.
- The translator's rendering of the success message is left out: the message is kept as its key and `%count%`.
- `processDelete` is the single `remove` call in the trace.
- How `getMainRequest()` is obtained is left out: the method is a parameter.
- The mass action's option bag is reduced to the three options the handler reads, as strings. Non-string option values are not modelled.
- Zend Mail header parsing is not modelled: headers arrive parsed.
- `isMultipart()` is the shape of the `Part` value (Zend decides it from a `multipart/` Content-Type).
- The `format` argument of `getPartContentDisposition` is not modelled: the raw value is kept.
- `getBody`, `Body` and `Attachment` construction are left out. An attachment is the leaf part it wraps.
- The `BuildExtendedAssociations` and `SaveOrmEntity` sources are not part of this model. Their behaviour is modelled from their unit tests, with the readings listed above.
- A persistence exception raised by `persist` or `flush` in the save processor is not modelled (its test does not raise one).
- Controller: the template rendering, the `Response` object and its JS MIME type are left out. The model stops at the JSON structure handed to the template.
- The translator's `getTranslations` is a function parameter.
- The chain-processor executor (priorities, groups, applicability) is not part of this model.
- The Calendar Selenium page, the MassNotification entity, the migration fixture, the installer scenario and the ApiDoc interface are left out: none of them holds behaviour.
