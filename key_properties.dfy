/**
 What the reconciled report promises, for every order in which Go may run the two range loops of
 trustList (`VisitOrders`), and what readKeys' messages say.
 */
module KeyProperties {
  import opened MapRange
  import opened Key

  /** `part` occurs in `s` starting at index `k`. */
  ghost predicate OccursAt(s: string, part: string, k: int) {
    0 <= k && k + |part| <= |s| && s[k..k + |part|] == part
  }

  /** `part` occurs somewhere in `s`. */
  ghost predicate Contains(s: string, part: string) {
    exists k :: OccursAt(s, part, k)
  }

  /** A store whose every key pair sits under its own serial (as a store read from disk is keyed). */
  ghost predicate KeyedBySerial(keys: Store) {
    forall s | s in keys :: keys[s].serialOctet == s
  }

  /** The error for an unreadable store names the directory and the parser's own error. */
  lemma ReadFailureNamesDirectory(dir: string, cause: string)
    ensures Contains(ReadFailureMessage(dir, cause), dir)
    ensures Contains(ReadFailureMessage(dir, cause), cause)
  {
    var m := ReadFailureMessage(dir, cause);
    var prefix := "Error reading keys from ";
    var middle := ". Error: ";
    assert m == prefix + dir + middle + cause;
    assert OccursAt(m, dir, |prefix|);
    assert OccursAt(m, cause, |m| - |cause|);
  }

  /** The warning for a missing store names the directory. */
  lemma MissingDirectoryWarningNamesDirectory(dir: string)
    ensures Contains(MissingDirectoryWarning(dir), dir)
  {
    var w := MissingDirectoryWarning(dir);
    var prefix := "Keys directory ";
    assert w == prefix + dir + " does not exist\n";
    assert OccursAt(w, dir, |prefix|);
  }

  /** The first loop appends one row per visited developer serial, in visit order. */
  lemma {:induction false} DeveloperEntriesAt(devKeys: Store, trustedSerials: set<string>, order: seq<string>)
    requires forall i | 0 <= i < |order| :: order[i] in devKeys
    ensures |DeveloperEntries(devKeys, trustedSerials, order)| == |order|
    ensures forall i | 0 <= i < |order| ::
      DeveloperEntries(devKeys, trustedSerials, order)[i] == TrustPair(devKeys[order[i]], order[i] in trustedSerials)
  {
    if order != [] {
      DeveloperEntriesAt(devKeys, trustedSerials, order[..|order| - 1]);
    }
  }

  /** The second loop appends one trusted row per visited leftover serial, in visit order. */
  lemma {:induction false} TrustedOnlyEntriesAt(leftover: Store, order: seq<string>)
    requires forall i | 0 <= i < |order| :: order[i] in leftover
    ensures |TrustedOnlyEntries(leftover, order)| == |order|
    ensures forall i | 0 <= i < |order| :: TrustedOnlyEntries(leftover, order)[i] == TrustPair(leftover[order[i]], true)
  {
    if order != [] {
      TrustedOnlyEntriesAt(leftover, order[..|order| - 1]);
    }
  }

  /**
   Every serial of either store gets exactly one row, and that row is the one `RowFor` gives it:
   row i belongs to serial (devOrder + restOrder)[i], and that sequence visits the union of the two
   key sets once each.
   */
  lemma OneRowPerSerial(devKeys: Store, trustedKeys: Store, devOrder: seq<string>, restOrder: seq<string>)
    requires VisitOrders(devKeys, trustedKeys, devOrder, restOrder)
    ensures Enumerates(devOrder + restOrder, devKeys.Keys + trustedKeys.Keys)
    ensures |Reconciled(devKeys, trustedKeys, devOrder, restOrder)| == |devOrder + restOrder|
    ensures forall i | 0 <= i < |devOrder + restOrder| ::
      Reconciled(devKeys, trustedKeys, devOrder, restOrder)[i] == RowFor(devKeys, trustedKeys, (devOrder + restOrder)[i])
  {
    var r := Reconciled(devKeys, trustedKeys, devOrder, restOrder);
    var serials := devOrder + restOrder;
    DeveloperEntriesAt(devKeys, trustedKeys.Keys, devOrder);
    TrustedOnlyEntriesAt(trustedKeys - devKeys.Keys, restOrder);
    EnumerationConcat(devOrder, restOrder, devKeys.Keys, trustedKeys.Keys - devKeys.Keys);
    assert devKeys.Keys + (trustedKeys.Keys - devKeys.Keys) == devKeys.Keys + trustedKeys.Keys;
    forall i | 0 <= i < |serials| ensures r[i] == RowFor(devKeys, trustedKeys, serials[i]) {
      if i >= |devOrder| {
        assert serials[i] == restOrder[i - |devOrder|];
      }
    }
  }

  /** The report has one row per serial of the union of the two stores. */
  lemma ReconciledLength(devKeys: Store, trustedKeys: Store, devOrder: seq<string>, restOrder: seq<string>)
    requires VisitOrders(devKeys, trustedKeys, devOrder, restOrder)
    ensures |Reconciled(devKeys, trustedKeys, devOrder, restOrder)| == |devKeys.Keys + trustedKeys.Keys|
  {
    OneRowPerSerial(devKeys, trustedKeys, devOrder, restOrder);
    EnumerationLength(devOrder + restOrder, devKeys.Keys + trustedKeys.Keys);
  }

  /**
   The first |devKeys| rows are the developer's pairs, one per developer serial, each trusted
   exactly when its serial was in the trust store before the call.
   */
  lemma DeveloperRowsFirst(devKeys: Store, trustedKeys: Store, devOrder: seq<string>, restOrder: seq<string>)
    requires VisitOrders(devKeys, trustedKeys, devOrder, restOrder)
    ensures |devOrder| == |devKeys| <= |Reconciled(devKeys, trustedKeys, devOrder, restOrder)|
    ensures forall i | 0 <= i < |devKeys| ::
      Reconciled(devKeys, trustedKeys, devOrder, restOrder)[i] == TrustPair(devKeys[devOrder[i]], devOrder[i] in trustedKeys)
  {
    EnumerationLength(devOrder, devKeys.Keys);
    OneRowPerSerial(devKeys, trustedKeys, devOrder, restOrder);
    var serials := devOrder + restOrder;
    forall i | 0 <= i < |devKeys| ensures serials[i] == devOrder[i] && serials[i] in devKeys {
    }
  }

  /** Every row after the developer block is a trusted pair whose serial the developer lacks. */
  lemma TrustedOnlyRowsAfter(devKeys: Store, trustedKeys: Store, devOrder: seq<string>, restOrder: seq<string>)
    requires VisitOrders(devKeys, trustedKeys, devOrder, restOrder)
    ensures forall i | |devKeys| <= i < |Reconciled(devKeys, trustedKeys, devOrder, restOrder)| ::
      && i - |devKeys| < |restOrder|
      && restOrder[i - |devKeys|] in trustedKeys
      && restOrder[i - |devKeys|] !in devKeys
      && Reconciled(devKeys, trustedKeys, devOrder, restOrder)[i] == TrustPair(trustedKeys[restOrder[i - |devKeys|]], true)
  {
    EnumerationLength(devOrder, devKeys.Keys);
    OneRowPerSerial(devKeys, trustedKeys, devOrder, restOrder);
    var serials := devOrder + restOrder;
    forall i | |devKeys| <= i < |serials| ensures serials[i] == restOrder[i - |devKeys|] {
    }
  }

  /** A row is marked trusted exactly when its serial was in the trust store before the call. */
  lemma TrustedIffInTrustStore(devKeys: Store, trustedKeys: Store, devOrder: seq<string>, restOrder: seq<string>)
    requires VisitOrders(devKeys, trustedKeys, devOrder, restOrder)
    ensures |Reconciled(devKeys, trustedKeys, devOrder, restOrder)| == |devOrder + restOrder|
    ensures forall i | 0 <= i < |devOrder + restOrder| ::
      Reconciled(devKeys, trustedKeys, devOrder, restOrder)[i].trusted <==> (devOrder + restOrder)[i] in trustedKeys
  {
    OneRowPerSerial(devKeys, trustedKeys, devOrder, restOrder);
  }

  /**
   A serial in both stores gets exactly one row: a trusted row carrying the developer's copy of the
   key pair, in the developer block.
   */
  lemma SharedSerialKeepsDeveloperPair(devKeys: Store, trustedKeys: Store, devOrder: seq<string>, restOrder: seq<string>, serial: string)
    requires VisitOrders(devKeys, trustedKeys, devOrder, restOrder)
    requires serial in devKeys && serial in trustedKeys
    ensures exists i | 0 <= i < |devOrder| :: devOrder[i] == serial
    ensures |Reconciled(devKeys, trustedKeys, devOrder, restOrder)| == |devOrder + restOrder|
    ensures forall i | 0 <= i < |devOrder + restOrder| && (devOrder + restOrder)[i] == serial ::
      && i < |devOrder|
      && Reconciled(devKeys, trustedKeys, devOrder, restOrder)[i] == TrustPair(devKeys[serial], true)
    ensures forall i, j | 0 <= i < j < |devOrder + restOrder| :: (devOrder + restOrder)[i] != (devOrder + restOrder)[j]
  {
    OneRowPerSerial(devKeys, trustedKeys, devOrder, restOrder);
    assert serial in devOrder;
    var serials := devOrder + restOrder;
    forall i | 0 <= i < |serials| && serials[i] == serial ensures i < |devOrder| {
    }
  }

  /** With an empty trust store, every developer pair is listed once, untrusted, and nothing else. */
  lemma NothingTrusted(devKeys: Store, devOrder: seq<string>, restOrder: seq<string>)
    requires VisitOrders(devKeys, map[], devOrder, restOrder)
    ensures |devOrder| == |devKeys| && restOrder == []
    ensures |Reconciled(devKeys, map[], devOrder, restOrder)| == |devKeys|
    ensures forall i | 0 <= i < |devKeys| ::
      Reconciled(devKeys, map[], devOrder, restOrder)[i] == TrustPair(devKeys[devOrder[i]], false)
  {
    EnumerationOfNothing(restOrder);
    ReconciledLength(devKeys, map[], devOrder, restOrder);
    assert devKeys.Keys + {} == devKeys.Keys;
    DeveloperRowsFirst(devKeys, map[], devOrder, restOrder);
  }

  /** With no developer keys, the report is the trust store's pairs, each once, all trusted. */
  lemma NoDeveloperKeys(trustedKeys: Store, devOrder: seq<string>, restOrder: seq<string>)
    requires VisitOrders(map[], trustedKeys, devOrder, restOrder)
    ensures devOrder == [] && |restOrder| == |trustedKeys|
    ensures Enumerates(restOrder, trustedKeys.Keys)
    ensures |Reconciled(map[], trustedKeys, devOrder, restOrder)| == |trustedKeys|
    ensures forall i | 0 <= i < |trustedKeys| ::
      Reconciled(map[], trustedKeys, devOrder, restOrder)[i] == TrustPair(trustedKeys[restOrder[i]], true)
  {
    EnumerationOfNothing(devOrder);
    var noKeys: Store := map[];
    assert trustedKeys - noKeys.Keys == trustedKeys;
    assert Reconciled(noKeys, trustedKeys, devOrder, restOrder) == TrustedOnlyEntries(trustedKeys, restOrder);
    assert trustedKeys.Keys - noKeys.Keys == trustedKeys.Keys;
    TrustedOnlyEntriesAt(trustedKeys, restOrder);
    EnumerationLength(restOrder, trustedKeys.Keys);
  }

  /** Two empty stores give an empty report. */
  lemma NoKeysAtAll(devOrder: seq<string>, restOrder: seq<string>)
    requires VisitOrders(map[], map[], devOrder, restOrder)
    ensures devOrder == [] && restOrder == []
    ensures Reconciled(map[], map[], devOrder, restOrder) == []
  {
    EnumerationOfNothing(devOrder);
    EnumerationOfNothing(restOrder);
  }

  /**
   When every pair sits under its own serial, no two rows of the report carry the same serial, and
   the rows' serials are exactly the serials of the two stores.
   */
  lemma KeyedReportHasUniqueSerials(devKeys: Store, trustedKeys: Store, devOrder: seq<string>, restOrder: seq<string>)
    requires KeyedBySerial(devKeys) && KeyedBySerial(trustedKeys)
    requires VisitOrders(devKeys, trustedKeys, devOrder, restOrder)
    ensures forall i, j | 0 <= i < j < |Reconciled(devKeys, trustedKeys, devOrder, restOrder)| ::
      Reconciled(devKeys, trustedKeys, devOrder, restOrder)[i].pair.serialOctet
        != Reconciled(devKeys, trustedKeys, devOrder, restOrder)[j].pair.serialOctet
    ensures forall i | 0 <= i < |Reconciled(devKeys, trustedKeys, devOrder, restOrder)| ::
      Reconciled(devKeys, trustedKeys, devOrder, restOrder)[i].pair.serialOctet in devKeys.Keys + trustedKeys.Keys
    ensures forall s | s in devKeys.Keys + trustedKeys.Keys ::
      exists i | 0 <= i < |Reconciled(devKeys, trustedKeys, devOrder, restOrder)| ::
        Reconciled(devKeys, trustedKeys, devOrder, restOrder)[i].pair.serialOctet == s
  {
    var r := Reconciled(devKeys, trustedKeys, devOrder, restOrder);
    var serials := devOrder + restOrder;
    OneRowPerSerial(devKeys, trustedKeys, devOrder, restOrder);
    forall i | 0 <= i < |r| ensures r[i].pair.serialOctet == serials[i] && serials[i] in devKeys.Keys + trustedKeys.Keys {
    }
    forall s | s in devKeys.Keys + trustedKeys.Keys ensures exists i | 0 <= i < |r| :: r[i].pair.serialOctet == s {
      assert s in serials;
      var i :| 0 <= i < |serials| && serials[i] == s;
      assert r[i].pair.serialOctet == s;
    }
  }

  /** The serials in `xs` all belong to one of the two stores. */
  ghost predicate FromStores(devKeys: Store, trustedKeys: Store, xs: seq<string>) {
    forall i | 0 <= i < |xs| :: xs[i] in devKeys || xs[i] in trustedKeys
  }

  /** The rows the serials `xs` get, in the order of `xs`. */
  function RowsFor(devKeys: Store, trustedKeys: Store, xs: seq<string>): seq<TrustPair>
    requires FromStores(devKeys, trustedKeys, xs)
  {
    seq(|xs|, i requires 0 <= i < |xs| => RowFor(devKeys, trustedKeys, xs[i]))
  }

  /** The rows of two runs of serials, one after the other. */
  lemma RowsForConcat(devKeys: Store, trustedKeys: Store, a: seq<string>, b: seq<string>)
    requires FromStores(devKeys, trustedKeys, a) && FromStores(devKeys, trustedKeys, b)
    ensures FromStores(devKeys, trustedKeys, a + b)
    ensures RowsFor(devKeys, trustedKeys, a + b) == RowsFor(devKeys, trustedKeys, a) + RowsFor(devKeys, trustedKeys, b)
  {
  }

  /** The first element of `xs` occurs in its permutation `ys`; taking both out leaves permutations. */
  lemma MatchFirst(xs: seq<string>, ys: seq<string>) returns (j: int)
    requires xs != [] && multiset(xs) == multiset(ys)
    ensures 0 <= j < |ys| && ys[j] == xs[0]
    ensures multiset(xs[1..]) == multiset(ys[..j] + ys[j + 1..])
  {
    assert xs[0] in multiset(ys);
    j :| 0 <= j < |ys| && ys[j] == xs[0];
    assert ys == ys[..j] + [ys[j]] + ys[j + 1..];
    assert xs == [xs[0]] + xs[1..];
    var rest := ys[..j] + ys[j + 1..];
    assert multiset(ys) == multiset(rest) + multiset{xs[0]};
    assert multiset(xs) == multiset(xs[1..]) + multiset{xs[0]};
    forall e ensures multiset(xs[1..])[e] == multiset(rest)[e] {
      assert multiset(xs)[e] == multiset(ys)[e];
    }
  }

  /** Rows that follow a permutation of the serials are a permutation of the rows. */
  lemma {:induction false} PermutedRows(devKeys: Store, trustedKeys: Store, xs: seq<string>, ys: seq<string>)
    requires FromStores(devKeys, trustedKeys, xs) && FromStores(devKeys, trustedKeys, ys)
    requires multiset(xs) == multiset(ys)
    ensures multiset(RowsFor(devKeys, trustedKeys, xs)) == multiset(RowsFor(devKeys, trustedKeys, ys))
    decreases |xs|
  {
    if xs == [] {
      assert |ys| == |multiset(ys)| == 0;
    } else {
      var x := xs[0];
      var j := MatchFirst(xs, ys);
      var before, after := ys[..j], ys[j + 1..];
      assert ys == before + ([x] + after);
      assert xs == [x] + xs[1..];
      assert FromStores(devKeys, trustedKeys, before) && FromStores(devKeys, trustedKeys, after) by {
        forall i | 0 <= i < |before| ensures before[i] == ys[i] {}
        forall i | 0 <= i < |after| ensures after[i] == ys[j + 1 + i] {}
      }
      RowsForConcat(devKeys, trustedKeys, [x], xs[1..]);
      RowsForConcat(devKeys, trustedKeys, [x], after);
      RowsForConcat(devKeys, trustedKeys, before, [x] + after);
      RowsForConcat(devKeys, trustedKeys, before, after);
      PermutedRows(devKeys, trustedKeys, xs[1..], before + after);
    }
  }

  /** The report is the rows of its serials, developer serials first. */
  lemma ReconciledIsRowsFor(devKeys: Store, trustedKeys: Store, devOrder: seq<string>, restOrder: seq<string>)
    requires VisitOrders(devKeys, trustedKeys, devOrder, restOrder)
    ensures FromStores(devKeys, trustedKeys, devOrder + restOrder)
    ensures Reconciled(devKeys, trustedKeys, devOrder, restOrder) == RowsFor(devKeys, trustedKeys, devOrder + restOrder)
  {
    OneRowPerSerial(devKeys, trustedKeys, devOrder, restOrder);
    var serials := devOrder + restOrder;
    assert FromStores(devKeys, trustedKeys, serials) by {
      forall i | 0 <= i < |serials| ensures serials[i] in devKeys.Keys + trustedKeys.Keys {}
    }
  }

  /**
   The report's rows do not depend on the order Go's range loops happen to take: any two runs list
   the same rows, each as often, possibly in a different order.
   */
  lemma ReportIndependentOfOrder(devKeys: Store, trustedKeys: Store,
                                 devOrder: seq<string>, restOrder: seq<string>,
                                 devOrder': seq<string>, restOrder': seq<string>)
    requires VisitOrders(devKeys, trustedKeys, devOrder, restOrder)
    requires VisitOrders(devKeys, trustedKeys, devOrder', restOrder')
    ensures multiset(Reconciled(devKeys, trustedKeys, devOrder, restOrder))
         == multiset(Reconciled(devKeys, trustedKeys, devOrder', restOrder'))
  {
    OneRowPerSerial(devKeys, trustedKeys, devOrder, restOrder);
    OneRowPerSerial(devKeys, trustedKeys, devOrder', restOrder');
    var xs, ys := devOrder + restOrder, devOrder' + restOrder';
    EnumerationsArePermutations(xs, ys, devKeys.Keys + trustedKeys.Keys);
    ReconciledIsRowsFor(devKeys, trustedKeys, devOrder, restOrder);
    ReconciledIsRowsFor(devKeys, trustedKeys, devOrder', restOrder');
    PermutedRows(devKeys, trustedKeys, xs, ys);
  }

  /** The report of the S1/S2/S3 example when both range loops follow key order. */
  lemma SharedSerialScenarioInKeyOrder(a: KeyPair, b: KeyPair, bTrusted: KeyPair, c: KeyPair)
    ensures VisitOrders(map["S1" := a, "S2" := b], map["S2" := bTrusted, "S3" := c], ["S1", "S2"], ["S3"])
    ensures Reconciled(map["S1" := a, "S2" := b], map["S2" := bTrusted, "S3" := c], ["S1", "S2"], ["S3"])
         == [TrustPair(a, false), TrustPair(b, true), TrustPair(c, true)]
  {
    var dev, trusted := map["S1" := a, "S2" := b], map["S2" := bTrusted, "S3" := c];
    assert dev.Keys == {"S1", "S2"} && trusted.Keys - dev.Keys == {"S3"};
    assert Distinct(["S1", "S2"]) && Distinct(["S3"]);
    assert ["S1", "S2"][..1] == ["S1"] && ["S1"][..0] == [] && ["S3"][..0] == [];
    assert "S1" !in trusted.Keys && "S2" in trusted.Keys;
    assert DeveloperEntries(dev, trusted.Keys, ["S1"]) == [TrustPair(a, false)];
    assert DeveloperEntries(dev, trusted.Keys, ["S1", "S2"]) == [TrustPair(a, false), TrustPair(b, true)];
    assert (trusted - dev.Keys)["S3"] == c;
    assert TrustedOnlyEntries(trusted - dev.Keys, ["S3"]) == [TrustPair(c, true)];
  }

  /**
   Developer serials S1 and S2, trusted serials S2 and S3: three rows, S1 untrusted, S2 trusted with
   the developer's copy, S3 trusted, in whatever order the range loops take.
   */
  lemma SharedSerialScenario(a: KeyPair, b: KeyPair, bTrusted: KeyPair, c: KeyPair, devOrder: seq<string>, restOrder: seq<string>)
    requires VisitOrders(map["S1" := a, "S2" := b], map["S2" := bTrusted, "S3" := c], devOrder, restOrder)
    ensures multiset(Reconciled(map["S1" := a, "S2" := b], map["S2" := bTrusted, "S3" := c], devOrder, restOrder))
         == multiset{TrustPair(a, false), TrustPair(b, true), TrustPair(c, true)}
  {
    SharedSerialScenarioInKeyOrder(a, b, bTrusted, c);
    ReportIndependentOfOrder(map["S1" := a, "S2" := b], map["S2" := bTrusted, "S3" := c], devOrder, restOrder, ["S1", "S2"], ["S3"]);
  }
}
