# Key inventory and trust reconciliation

This project models the `key` command of the Horizon CLI (`cli/key/key.go`) in Dafny. A developer
keeps signing key pairs in one directory, and the runtime keeps the key pairs it trusts in another.
The command does two things:

- `readKeys` reads each directory into a map from certificate serial to key pair.
- `trustList` merges the two maps into one report. Every serial of either map gets exactly one
  row, flagged trusted when the serial is in the runtime's trust store. For a serial in both maps,
  the developer's pair is the one listed.

Modules:

- `Wrappers` (`wrappers.dfy`): `Option`, which stands for Go's nil-or-error values.
- `MapRange` (`maprange.dfy`): what a Go `for ... range` over a map guarantees. It visits every key
  exactly once, in an order chosen at run time (`Enumerates`). Also lemmas on such orders.
- `Key` (`key.dfy`): the code itself.
  - `KeyPair`, `Store` and `TrustPair` are the data.
  - `KeyMap` is a Go map as a mutable reference. This makes the destructive `delete` something the
    caller can see.
  - `ReadKeys` is `readKeys`, `IsTrusted` is the `isTrusted` closure, `TrustList` is `trustList`,
    and `List` is the composition in `List`.
  - `Reconciled` is a non-destructive reference definition of the list `trustList` builds.
    `TrustList` is proved to return exactly `Reconciled` of the original maps.
- `KeyProperties` (`key_properties.dfy`): what the report promises for every admissible iteration
  order. Also what the read errors and warnings say.

How the outside world enters the model:

- The two filesystem calls `readKeys` makes are inputs. `StatResult` is what `os.Stat` reports:
  the directory exists, does not exist, or some other error. `Listing` is what
  `listkeys.ListPairs` returns: a map plus an optional error.
- Go's unspecified map iteration order is modelled in the methods by picking the next unvisited key
  with `:|`. The methods return the order they used as ghost out-parameters. All properties are
  stated for every order that satisfies `VisitOrders`.
- Operator output: `ReadKeys` returns its missing-directory warning as an `Option<string>`, next to
  its map and its error. `List` turns each call's warning and logged error into `Notice` values
  (`cliutils.Warn`, `cliutils.Error`).

Two edge cases of `readKeys` that the model follows as written:

- A directory whose key files fail to parse: `readKeys` returns whatever map `ListPairs` gave back,
  together with the wrapped error (cli/key/key.go:77-79). The comment at cli/key/key.go:66 says an
  empty data structure is always returned, even on error; the code does not guarantee that.
  `ReadKeys` returns `listPairs.pairs`.
- A `Stat` failure other than "does not exist" (for example, permission denied): the error is
  swallowed. `readKeys` returns an empty map and a nil error, and prints no warning
  (cli/key/key.go:71-74, 83). `ReadKeys` does the same.

## Model

| member | source | states |
|---|---|---|
| Key.ReadKeys | cli/key/key.go:65-84 | Each stat outcome, missing or otherwise failing, gives an empty map and no error. Only a missing directory gives the "Keys directory … does not exist" warning. An existing directory gives the parser's map. A parse failure also gives the wrapped error for that directory and cause; otherwise the error is nil. |
| Key.ReadNotices | cli/key/key.go:71-126 | One directory produces at most one operator line. It is the missing-directory warning `readKeys` prints exactly when the directory does not exist. It is the error line that `List` logs for that directory's `readKeys` call (key.go:116-118, 124-126) exactly when the directory exists and its parse fails. |
| Key.IsTrusted | cli/key/key.go:89-98 | Answers true exactly when the serial was a key of the trusted map. On return, the map is the old map without that serial, and nothing else in it has changed. |
| Key.TrustList | cli/key/key.go:86-112 | Both range loops visit their maps in some admissible order. The result equals the non-destructive `Reconciled` of the original maps in those orders. On return, the trusted map is the original restricted to serials the developer map lacks. The developer map is a value and cannot change. |
| Key.List | cli/key/key.go:114-131 | The report reconciles the two maps `readKeys` hands back, so a failed read degrades that side to what was read. The operator lines are the developer directory's lines, then the trust directory's lines. |
| KeyProperties.ReadFailureNamesDirectory | cli/key/key.go:79 | The parse-failure error message contains the directory and the underlying error text. |
| KeyProperties.MissingDirectoryWarningNamesDirectory | cli/key/key.go:73 | The missing-directory warning contains the directory. |
| KeyProperties.DeveloperEntriesAt | cli/key/key.go:102-104 | The first loop appends exactly one row per visited developer serial, in visit order. Each row holds the developer's pair and is trusted iff the serial is in the trust store. |
| KeyProperties.TrustedOnlyEntriesAt | cli/key/key.go:107-109 | The second loop appends exactly one row per leftover trusted serial, in visit order. Each row holds the trust store's pair and is marked trusted. |
| KeyProperties.OneRowPerSerial | cli/key/key.go:88-111 | The serials behind the rows, developer block then leftover block, visit the union of both key sets once each. Row i is the row its serial gets: the developer's copy when the developer has the serial, otherwise the trust store's. |
| KeyProperties.ReconciledLength | cli/key/key.go:88-111 | The report has exactly as many rows as the union of the two key sets has serials. |
| KeyProperties.DeveloperRowsFirst | cli/key/key.go:102-104 | The first size-of-developer-map rows are the developer pairs, one per developer serial. Each is trusted exactly when its serial was in the original trust store. |
| KeyProperties.TrustedOnlyRowsAfter | cli/key/key.go:106-109 | Every row after the developer block comes from a trust-store serial that is not a developer serial. It carries the trust store's pair, marked trusted. |
| KeyProperties.TrustedIffInTrustStore | cli/key/key.go:89-109 | Across the whole report, a row is marked trusted exactly when its serial was a key of the original trust store. |
| KeyProperties.SharedSerialKeepsDeveloperPair | cli/key/key.go:93-108 | A serial in both maps appears in the developer block and nowhere else. Its only row carries the developer's pair, marked trusted. Rows' serials are pairwise distinct. |
| KeyProperties.NothingTrusted | cli/key/key.go:100-111 | With an empty trust store, the second loop visits nothing. The report is the developer pairs, one per serial, all untrusted. |
| KeyProperties.NoDeveloperKeys | cli/key/key.go:100-111 | With an empty developer map, the report is the trust store's pairs, one per serial, all trusted. |
| KeyProperties.NoKeysAtAll | cli/key/key.go:100-111 | With both maps empty, both loops visit nothing and the report is empty. |
| KeyProperties.KeyedReportHasUniqueSerials | cli/key/key.go:88-111 | Suppose every pair sits under its own serial. Then no two rows carry the same serial, every row's serial is in one of the stores, and every serial of either store has a row. |
| KeyProperties.ReportIndependentOfOrder | cli/key/key.go:102-109 | Any two admissible iteration orders give the same rows with the same multiplicities; only their order may differ. |
| KeyProperties.SharedSerialScenario | cli/key/key.go:88-111 | Developer serials S1 and S2 and trusted serials S2 and S3 give exactly three rows, whatever the order: S1 untrusted, S2 trusted with the developer's copy, S3 trusted. |

## Left out

- `ListFromAnaxAPI` (cli/key/key.go:50-63) is not modelled. It is an HTTP GET through
  `cliutils.HorizonGet`, a check that the key `pem` is present, JSON marshalling and a fatal exit:
  network and serialisation code that is not visible here.
- `init` (cli/key/key.go:36-47) is not modelled: it reads `user.Current()` and joins paths. The two
  directory paths are plain inputs of `List`.
- `List`'s report rendering with `text/template` to standard output, and the logging of a
  rendering error (cli/key/key.go:128-133), are not modelled. `List` returns the rows it would
  render.
- The internals of `os.Stat` and `listkeys.ListPairs` are not modelled. Their results are inputs.
  The model has no nil maps: Go reads a nil map as an empty one, and the model treats it so.
- `KeyPair` holds only the fields the report uses. The serial is a string and the subject names
  are a string-to-string map. `listkeys` is not part of this model, so the types it really uses are
  not known here.
- The Go run time's random choice of map iteration order is not fixed. Every property holds for
  every order that visits each key once.
- Key.TrustList: takes the developer map by value, so the model does not cover calling
  `trustList` with the same Go map as both arguments. `List` never does that: the two maps come
  from two separate `readKeys` calls.
- The text `cliutils.Warn` and `cliutils.Error` add around a message is not modelled. A `Notice`
  holds only the message.
- `version/version.go` is not modelled: it is a single version string constant with no behaviour.
