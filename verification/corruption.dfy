/** What those who read a damaged log do about it: recovery with paranoid checks and the opening of a
    manifest refuse what is reported (db_impl.cc RecoverLogFile, version_set.cc Recover). */
module Corruptions {
  import opened Wrappers
  import opened Coding
  import opened Logs
  import opened LogRecovery
  import opened LogDamage
  import opened LogReports
  import Recovery
  import Descriptors

  /** A cut that fails the checksum test, or the length test in a block that is not the last. */
  predicate Loud(file: Bytes, cuts: Cuts, k: nat) {
    k in cuts && CutsLie(file, cuts) &&
    var rest := Suffix(file, cuts, k);
    if TooLongFor(rest) then !IsLast(file, k) else !ZeroRecord(rest)
  }

  /** A log with such a cut is refused by recovery with paranoid checks; without them recovery reads on,
      and adds what the surviving records hold. */
  lemma DamagedLogIsRefused(records: seq<Bytes>, file: Bytes, cuts: Cuts, k: nat, maxSequence: nat)
    requires Damage(LogOf(0, records), file, cuts) && DropsWholeFragments(0, 0, records, cuts) && Loud(file, cuts, k)
    ensures !Recovery.Replay(ItemsFrom(0, file), true, maxSequence).ok
    ensures Recovery.Replay(ItemsFrom(0, file), false, maxSequence).ok
  {
    hide Damage, DropsWholeFragments, LogOf, ItemsFrom, Reports, Records, Recovery.Replay;
    LoudCutIsReported(records, file, cuts, k);
    Recovery.ParanoidAcceptsOnlySound(ItemsFrom(0, file), maxSequence);
  }

  /** A manifest with such a cut does not open; the failure is a corruption if the records that survive
      are edits of this database. */
  lemma DamagedManifestIsRefused(d: Descriptors.Disk, records: seq<Bytes>, file: Bytes, cuts: Cuts, k: nat,
                                 r: Descriptors.Outcome)
    requires Damage(LogOf(0, records), file, cuts) && DropsWholeFragments(0, 0, records, cuts) && Loud(file, cuts, k)
    requires Descriptors.IsRecovery(d, file, r)
    ensures r.Failed?
    ensures (forall e :: e in Survivors(0, 0, records, cuts) ==> Descriptors.Readable(e, d.comparator)) ==>
      r == Descriptors.Failed(Descriptors.Corrupt)
  {
    hide Damage, DropsWholeFragments, LogOf, ItemsFrom, Reports, Records, Survivors, Descriptors.EditsIn,
         Descriptors.Readable;
    LoudCutIsReported(records, file, cuts, k);
    DamageNeverSplices(records, file, cuts);
    Descriptors.CorruptManifestIsRefused(ItemsFrom(0, file), d.comparator);
  }

  /** Damage that nothing reports is taken for the end of the log, or for space never written: recovery
      with paranoid checks accepts it if the surviving records are sound. */
  lemma SilentDamageIsAccepted(records: seq<Bytes>, file: Bytes, cuts: Cuts, maxSequence: nat)
    requires Damage(LogOf(0, records), file, cuts) && DropsWholeFragments(0, 0, records, cuts)
    requires CutsLie(file, cuts) && AllSilent(file, cuts) && AllOrNothing(0, 0, records, cuts)
    ensures Recovery.Replay(ItemsFrom(0, file), true, maxSequence).ok <==>
            forall rep :: rep in Survivors(0, 0, records, cuts) ==> Recovery.Sound(rep)
  {
    hide Damage, DropsWholeFragments, LogOf, ItemsFrom, Reports, Records, Survivors, Recovery.Replay, Recovery.Sound,
         AllSilent, CutsLie, AllOrNothing;
    SilentCutsAreNotReported(records, file, cuts);
    DamageNeverSplices(records, file, cuts);
    Recovery.ParanoidAcceptsOnlySound(ItemsFrom(0, file), maxSequence);
  }
}
