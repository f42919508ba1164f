/**
 The `key` command's store reading and trust reconciliation (cli/key/key.go).

 A developer keeps signing key pairs in one directory; the runtime keeps the key pairs it trusts in
 another. `ReadKeys` turns a directory into a map from certificate serial to key pair, and
 `TrustList` merges the two maps into one list in which every serial of either map gets exactly
 one row, flagged trusted when the serial is in the runtime's trust store; for a serial in both
 maps, the developer's pair is the one listed.

 The filesystem and the key-file parser are not visible here: what `os.Stat` and `listkeys.ListPairs`
 report for a directory is passed in as a `StatResult` and a `Listing`. A Go map range picks its
 order at run time; the methods below choose the next key with `:|` and hand back the order they
 used as ghost out-parameters, and `Reconciled` describes the result for any such order.
 */
module Key {
  import opened Wrappers
  import opened MapRange

  /** One key pair as the key-file parser reports it. */
  datatype KeyPair = KeyPair(serialOctet: string, havePrivateKey: bool, simpleSubjectNames: map<string, string>)

  /** The key pairs of one directory, by certificate serial. */
  type Store = map<string, KeyPair>

  /** One row of the report: a key pair and whether the runtime trusts it. */
  datatype TrustPair = TrustPair(pair: KeyPair, trusted: bool)

  /** What `os.Stat` says of a directory: it exists, it does not exist, or some other error. */
  datatype StatResult = Exists | NotExist | StatFailed(cause: string)

  /** What `listkeys.ListPairs` returns for a directory: a map, and an error or nil. */
  datatype Listing = Listing(pairs: Store, failure: Option<string>)

  /** A line written to the operator: `cliutils.Warn` or `cliutils.Error`. */
  datatype Notice = Warning(text: string) | Error(text: string)

  /** A Go map of key pairs. Go maps are references, so a callee's `delete` is seen by its caller. */
  class KeyMap {
    var entries: Store

    constructor (entries: Store)
      ensures this.entries == entries
    {
      this.entries := entries;
    }
  }

  /** The warning for a missing directory. */
  function MissingDirectoryWarning(dir: string): string {
    "Keys directory " + dir + " does not exist\n"
  }

  /** The error that wraps a parse failure `cause` of the key files in `dir`. */
  function ReadFailureMessage(dir: string, cause: string): string {
    "Error reading keys from " + dir + ". Error: " + cause
  }

  /** The map `readKeys` hands back: the parser's map when the directory exists, else an empty one. */
  function Loaded(stat: StatResult, listing: Listing): Store {
    if stat.Exists? then listing.pairs else map[]
  }

  /** What `readKeys` and its caller `List` write to the operator for one directory. */
  function ReadNotices(dir: string, stat: StatResult, listing: Listing): (notices: seq<Notice>)
    ensures |notices| <= 1
    ensures Warning(MissingDirectoryWarning(dir)) in notices <==> stat.NotExist?
    ensures stat.Exists? && listing.failure.Some? <==> notices != [] && notices[0].Error?
  {
    match stat
    case NotExist => [Warning(MissingDirectoryWarning(dir))]
    case StatFailed(_) => []
    case Exists =>
      if listing.failure.Some? then [Error(ReadFailureMessage(dir, listing.failure.value))] else []
  }

  /**
   readKeys: the key pairs in `dir`. A directory that is missing, or that `os.Stat` cannot look at
   for any other reason, gives an empty map and no error (only a missing one gives a warning). A
   parse failure gives the parser's map together with an error naming the directory.
   */
  method ReadKeys(dir: string, stat: StatResult, listPairs: Listing)
    returns (keyList: Store, err: Option<string>, warning: Option<string>)
    ensures !stat.Exists? ==> keyList == map[] && err == None
    ensures warning == if stat.NotExist? then Some(MissingDirectoryWarning(dir)) else None
    ensures stat.Exists? ==> keyList == listPairs.pairs
    ensures stat.Exists? && listPairs.failure.Some? ==> err == Some(ReadFailureMessage(dir, listPairs.failure.value))
    ensures stat.Exists? && listPairs.failure.None? ==> err == None
  {
    keyList := map[];
    warning := None;
    if !stat.Exists? {
      if stat.NotExist? {
        warning := Some(MissingDirectoryWarning(dir));
      }
    } else {
      var listErr: Option<string>;
      keyList, listErr := listPairs.pairs, listPairs.failure;
      if listErr.Some? {
        return keyList, Some(ReadFailureMessage(dir, listErr.value)), warning;
      }
    }
    return keyList, None, warning;
  }

  /**
   The isTrusted closure of trustList: scans the trusted map for `serial`; on a hit it deletes the
   serial from the map and answers true.
   */
  method IsTrusted(trustedKeys: KeyMap, serial: string) returns (found: bool)
    modifies trustedKeys
    ensures found <==> serial in old(trustedKeys.entries)
    ensures trustedKeys.entries == old(trustedKeys.entries) - {serial}
  {
    var unvisited := trustedKeys.entries.Keys;
    while unvisited != {}
      invariant unvisited <= trustedKeys.entries.Keys
      invariant trustedKeys.entries == old(trustedKeys.entries)
      invariant serial in trustedKeys.entries ==> serial in unvisited
      decreases unvisited
    {
      var tSerial :| tSerial in unvisited;
      if serial == tSerial {
        trustedKeys.entries := trustedKeys.entries - {serial};
        return true;
      }
      unvisited := unvisited - {tSerial};
    }
    assert trustedKeys.entries == old(trustedKeys.entries) - {serial};
    return false;
  }

  /** The rows the first loop of trustList appends, visiting the developer serials in `order`. */
  function DeveloperEntries(devKeys: Store, trustedSerials: set<string>, order: seq<string>): seq<TrustPair>
    requires forall i | 0 <= i < |order| :: order[i] in devKeys
  {
    if order == [] then []
    else
      var last := order[|order| - 1];
      DeveloperEntries(devKeys, trustedSerials, order[..|order| - 1]) + [TrustPair(devKeys[last], last in trustedSerials)]
  }

  /** The rows the second loop of trustList appends, visiting the serials left over in `order`. */
  function TrustedOnlyEntries(leftover: Store, order: seq<string>): seq<TrustPair>
    requires forall i | 0 <= i < |order| :: order[i] in leftover
  {
    if order == [] then []
    else
      var last := order[|order| - 1];
      TrustedOnlyEntries(leftover, order[..|order| - 1]) + [TrustPair(leftover[last], true)]
  }

  /** `devOrder` and `restOrder` are orders in which trustList's two range loops may visit their maps. */
  ghost predicate VisitOrders(devKeys: Store, trustedKeys: Store, devOrder: seq<string>, restOrder: seq<string>) {
    Enumerates(devOrder, devKeys.Keys) && Enumerates(restOrder, trustedKeys.Keys - devKeys.Keys)
  }

  /** The row a serial of either store gets in the report; the developer's copy wins. */
  function RowFor(devKeys: Store, trustedKeys: Store, serial: string): TrustPair
    requires serial in devKeys || serial in trustedKeys
  {
    if serial in devKeys then TrustPair(devKeys[serial], serial in trustedKeys)
    else TrustPair(trustedKeys[serial], true)
  }

  /**
   The list trustList builds, written without the destructive trust test: every developer pair,
   trusted when its serial was in the trust store before the call, then every trusted pair whose
   serial the developer does not have.
   */
  function Reconciled(devKeys: Store, trustedKeys: Store, devOrder: seq<string>, restOrder: seq<string>): seq<TrustPair>
    requires forall i | 0 <= i < |devOrder| :: devOrder[i] in devKeys
    requires forall i | 0 <= i < |restOrder| :: restOrder[i] in trustedKeys && restOrder[i] !in devKeys
  {
    DeveloperEntries(devKeys, trustedKeys.Keys, devOrder) + TrustedOnlyEntries(trustedKeys - devKeys.Keys, restOrder)
  }

  /**
   trustList: merges the developer's key pairs with the runtime's trusted ones. Destructive: on
   return `trustedKeys` holds only the serials the developer does not have.
   */
  method TrustList(devKeys: Store, trustedKeys: KeyMap)
    returns (trusted: seq<TrustPair>, ghost devOrder: seq<string>, ghost restOrder: seq<string>)
    modifies trustedKeys
    ensures VisitOrders(devKeys, old(trustedKeys.entries), devOrder, restOrder)
    ensures trustedKeys.entries == old(trustedKeys.entries) - devKeys.Keys
    ensures trusted == Reconciled(devKeys, old(trustedKeys.entries), devOrder, restOrder)
  {
    ghost var original := trustedKeys.entries;
    trusted := [];
    devOrder := [];
    var unvisited := devKeys.Keys;
    while unvisited != {}
      invariant unvisited <= devKeys.Keys
      invariant Distinct(devOrder)
      invariant forall i | 0 <= i < |devOrder| :: devOrder[i] in devKeys && devOrder[i] !in unvisited
      invariant forall s | s in devKeys.Keys - unvisited :: s in devOrder
      invariant trustedKeys.entries == original - (devKeys.Keys - unvisited)
      invariant trusted == DeveloperEntries(devKeys, original.Keys, devOrder)
      decreases unvisited
    {
      var serial :| serial in unvisited;
      var keyPair := devKeys[serial];
      var isTrusted := IsTrusted(trustedKeys, serial);
      trusted := trusted + [TrustPair(keyPair, isTrusted)];
      devOrder := devOrder + [serial];
      unvisited := unvisited - {serial};
    }
    assert devKeys.Keys - unvisited == devKeys.Keys;

    ghost var leftover := trustedKeys.entries;
    restOrder := [];
    unvisited := trustedKeys.entries.Keys;
    while unvisited != {}
      invariant trustedKeys.entries == leftover
      invariant unvisited <= leftover.Keys
      invariant Distinct(restOrder)
      invariant forall i | 0 <= i < |restOrder| :: restOrder[i] in leftover && restOrder[i] !in unvisited
      invariant forall s | s in leftover.Keys - unvisited :: s in restOrder
      invariant trusted == DeveloperEntries(devKeys, original.Keys, devOrder) + TrustedOnlyEntries(leftover, restOrder)
      decreases unvisited
    {
      var serial :| serial in unvisited;
      trusted := trusted + [TrustPair(trustedKeys.entries[serial], true)];
      restOrder := restOrder + [serial];
      unvisited := unvisited - {serial};
    }
    assert leftover.Keys - unvisited == leftover.Keys;
  }

  /**
   The report of List: both directories are read, a failure on either side is written to the
   operator and that side counts as what readKeys handed back, and the two maps are reconciled.
   */
  method List(devDir: string, devStat: StatResult, devListing: Listing,
               trustedDir: string, trustedStat: StatResult, trustedListing: Listing)
    returns (report: seq<TrustPair>, notices: seq<Notice>, ghost devOrder: seq<string>, ghost restOrder: seq<string>)
    ensures VisitOrders(Loaded(devStat, devListing), Loaded(trustedStat, trustedListing), devOrder, restOrder)
    ensures report == Reconciled(Loaded(devStat, devListing), Loaded(trustedStat, trustedListing), devOrder, restOrder)
    ensures notices == ReadNotices(devDir, devStat, devListing) + ReadNotices(trustedDir, trustedStat, trustedListing)
  {
    var developerKeys, err, warning := ReadKeys(devDir, devStat, devListing);
    notices := Logged(warning, err);
    var anaxTrustedKeys, err', warning' := ReadKeys(trustedDir, trustedStat, trustedListing);
    notices := notices + Logged(warning', err');
    var tempAnaxTrustedKeys := new KeyMap(anaxTrustedKeys);
    report, devOrder, restOrder := TrustList(developerKeys, tempAnaxTrustedKeys);
  }

  /** The lines one readKeys call leads to: its warning, then the error its caller logs. */
  function Logged(warning: Option<string>, err: Option<string>): seq<Notice> {
    (if warning.Some? then [Warning(warning.value)] else []) + (if err.Some? then [Error(err.value)] else [])
  }
}
