# Schema screen: replication-key lookup and include flag

A model of the per-stream reads that the schema screen of the knots desktop
tool performs on a tap's discovered catalog. A catalog stream has a name, a
`tap_stream_id` and an ordered list of metadata entries. Each entry has a
`breadcrumb` (a path; empty for the stream-level "root" entry) and a
`metadata` map whose values are loosely typed.

Two reads are modelled:

- `validRepKeys` fills the "Replication Key" dropdown. It scans the entries
  front to back and overwrites `indexToUpdate` at every entry whose breadcrumb
  is empty. It then returns that entry's `valid-replication-keys` value, or
  `[]` when the value is falsy.
- The "Include" checkbox shows the truthiness of the `selected` field of
  entry `0`.

Files:

- `catalog.dfy` (module `Catalog`): the value datatype (`Null`, `Bool`,
  `Num`, `Str`, `StrList`, `Other`), metadata entries, streams, JavaScript
  truthiness (`Truthy`), map reads where a missing key is `undefined`
  (`Field`), and the `v || []` default (`OrEmpty`).
- `schema.dfy` (module `Schema`): the specification functions
  (`LastRootIndex`, `RootRepKeys`, `IncludeFlag`), the imperative
  `ValidRepKeys` method whose loop mirrors the `forEach`, and the lemmas.

A read on `undefined` throws a TypeError in the source. The model returns
`Err(NoRootEntry)` when no entry has an empty breadcrumb. It returns
`Err(NoFirstEntry)` when the checkbox reads entry `0` of an empty list.

`ValidRepKeys` takes the stream by value and has no `modifies` clause, so it
cannot change the stream or its entries. This matches the source, which only
reads its argument.

Where the design description and the code disagree, the model follows the
code:

- The design says several root entries are an integrity error. The code
  silently uses the last one (`LastRootEntryDecides`, `EarlierEntriesIgnored`).
- The design says the replication-key lookup never fails. The code throws
  when there is no root entry (`MissingRootFails`).
- The design says the lookup yields a list of strings. The code returns
  whatever truthy value the field holds, such as a string or `true`. So the
  result is a `Value`, and `RootRepKeys` only promises that it is truthy.

## Model

| member | source | states |
|---|---|---|
| `Catalog.OrEmpty` | app/components/Schema/index.js:110 | `v \|\| []` is always truthy; a truthy value passes through unchanged; every falsy value becomes the empty list |
| `Schema.LastRootIndex` | app/components/Schema/index.js:103-108 | the final `indexToUpdate` is the index of an entry with an empty breadcrumb and no later entry has one; it is undefined exactly when no entry has an empty breadcrumb |
| `Schema.RootRepKeys` | app/components/Schema/index.js:102-112 | the lookup fails only by the missing-root TypeError, and a result it returns is always truthy |
| `Schema.ValidRepKeys` | app/components/Schema/index.js:102-112 | the forward scan with its overwriting assignment returns exactly the specified result, the last root entry's keys or `[]`, or the missing-root error |
| `Schema.IncludeFlag` | app/components/Schema/index.js:242 | the checkbox read fails exactly when the stream has no metadata entries |
| `Schema.LastRootIndexIs` | app/components/Schema/index.js:104-108 | a root entry with no root entry after it is where the scan ends up |
| `Schema.LastRootEntryDecides` | app/components/Schema/index.js:104-110 | the last entry with an empty breadcrumb decides the result: its `valid-replication-keys` with the `[]` default |
| `Schema.SingleRootDecides` | app/components/Schema/index.js:102-112 | with exactly one root entry, a truthy `valid-replication-keys` of that entry is returned as it is |
| `Schema.FalsyKeysGiveEmpty` | app/components/Schema/index.js:110 | an absent or falsy `valid-replication-keys` on the deciding entry yields `[]` |
| `Schema.EarlierEntriesIgnored` | app/components/Schema/index.js:104-107 | with a root entry at position j, replacing any entry before j (root or not) leaves the result unchanged, so earlier roots lose to later ones |
| `Schema.NonRootEntryIgnored` | app/components/Schema/index.js:105 | replacing a non-root entry by any other non-root entry, whatever their metadata, leaves the result unchanged, the error case included |
| `Schema.NonRootEntriesIgnored` | app/components/Schema/index.js:104-108 | dropping every entry with a non-empty breadcrumb, wherever it stands, leaves the result unchanged |
| `Schema.MissingRootFails` | app/components/Schema/index.js:103-110 | the lookup throws if and only if no entry has an empty breadcrumb |
| `Schema.IncludeReadsFirstEntryOnly` | app/components/Schema/index.js:242 | changing any entry other than entry 0, the root entry included, leaves the include flag unchanged |
| `Schema.IncludeAgreesWhenRootFirst` | app/components/Schema/index.js:242 | when the only root entry is entry 0, the include flag equals the root entry's `selected` truthiness |
| `Schema.IncludeMayDisagreeWithRoot` | app/components/Schema/index.js:242 | there is a stream with exactly one root entry, standing second, whose include flag is true while its root entry's `selected` is false |
| `Schema.SingleRootScenario` | app/components/Schema/index.js:102-112 | a single root entry `{selected: true, valid-replication-keys: ["updated_at"]}` offers `["updated_at"]` and shows as included |

## Left out

- The rest of the `Schema` component: rendering, the redirect, error modals, the log view and the `showSchema` toggle. These are presentation only.
- The socket.io client and the `schemaLog` subscription. These are network transport.
- `handleChange`, `submit`, `toggle` and `reconfigure`. They only forward to props and router history. The reducer that applies `editSchemaField` is not part of this model, so no edit semantics are modelled.
- app/actions/targets.js and app/backend/index.js: HTTP action creators and server bootstrap. These wrap libraries outside the model.
- Catalog parsing and serialising, log fan-out, in-flight deduplication and the install/discover/configure state machine. None of these has source in the files modelled.
- Entries that lack a `breadcrumb` or a `metadata` field, and breadcrumbs that are not arrays. The model's entries always have both fields, so the TypeErrors these would raise are not modelled.
- Non-integer numbers and `NaN`. `Num` holds integers only, so a fractional or `NaN` field value is not modelled.
- Object identity. Streams are values, so the sharing of the stream object with the application store is not modelled.
