/**
  The mapping store: the twelve role names, the default binding, and the live
  `buttonMapping` object with its two in-place merges (applying a finished
  calibration, and loading a stored one at start-up).
 */
module ButtonMap {
  import opened Gamepad

  const VbLeft := "vbLeft"
  const VbDown := "vbDown"
  const VbRight := "vbRight"
  const VbUp := "vbUp"

  /** The name of action button `n` (1..8): `vb1` .. `vb8`. */
  function ActionKey(n: nat): string
    requires 1 <= n <= 8
  {
    "vb" + [('0' as int + n) as char]
  }

  /** Two different action numbers name two different roles, none of them a directional. */
  lemma ActionKeysDistinct(n: nat, n': nat)
    requires 1 <= n <= 8 && 1 <= n' <= 8
    ensures ActionKey(n) == ActionKey(n') <==> n == n'
    ensures ActionKey(n) !in {VbLeft, VbDown, VbRight, VbUp}
  {
    if ActionKey(n) == ActionKey(n') {
      assert ActionKey(n)[2] == ActionKey(n')[2];
    }
  }

  /** The binding used when nothing has been calibrated. */
  const DefaultMapping: Mapping := map[
    ActionKey(1) := Button(1), ActionKey(2) := Button(2), ActionKey(3) := Button(7),
    ActionKey(4) := Button(6), ActionKey(5) := Button(0), ActionKey(6) := Button(3),
    ActionKey(7) := Button(5), ActionKey(8) := Button(4),
    VbUp := Button(13), VbDown := Button(12), VbRight := Button(15), VbLeft := Button(14)]

  /** What the calibration key of the persistent store holds. */
  datatype Stored = Absent | Malformed | Parsed(mapping: Mapping)

  /**
    The live `buttonMapping` together with the persisted calibration entry.
    Both merges overwrite exactly the keys they are given, one key at a time.
   */
  class ButtonMapping {
    var entries: Mapping
    var stored: Stored

    constructor (storage: Stored)
      ensures entries == DefaultMapping && stored == storage
    {
      entries := DefaultMapping;
      stored := storage;
    }

    /** Overwrite every key of `m` in `entries`, visiting the keys one at a time. */
    method MergeIn(m: Mapping)
      modifies this
      ensures stored == old(stored)
      ensures entries.Keys == old(entries).Keys + m.Keys
      ensures forall k :: k in m ==> entries[k] == m[k]
      ensures forall k :: k in old(entries) && k !in m ==> entries[k] == old(entries)[k]
    {
      var rest := m.Keys;
      while rest != {}
        invariant rest <= m.Keys
        invariant stored == old(stored)
        invariant entries.Keys == old(entries).Keys + (m.Keys - rest)
        invariant forall k :: k in m && k !in rest ==> entries[k] == m[k]
        invariant forall k :: k in old(entries) && k !in m.Keys - rest ==> entries[k] == old(entries)[k]
        decreases rest
      {
        var k :| k in rest;
        entries := entries[k := m[k]];
        rest := rest - {k};
      }
    }

    /** The mapping merge of `finishCalibration`, followed by `saveCalibration`. */
    method FinishCalibration(calibrated: Mapping)
      modifies this
      ensures entries == old(entries) + calibrated
      ensures stored == Parsed(calibrated)
    {
      MergeIn(calibrated);
      stored := Parsed(calibrated);
    }

    /**
      `loadCalibration`: with nothing stored (or a stored value that does not parse)
      it reports false and changes nothing; otherwise it merges the stored keys.
     */
    method LoadCalibration() returns (loaded: bool)
      modifies this
      ensures stored == old(stored)
      ensures loaded <==> old(stored).Parsed?
      ensures loaded ==> entries == old(entries) + old(stored).mapping
      ensures !loaded ==> entries == old(entries)
    {
      match stored {
        case Parsed(m) =>
          MergeIn(m);
          loaded := true;
        case _ =>
          loaded := false;
      }
    }
  }

  /** The default binding names all twelve roles. */
  lemma DefaultMappingIsTotal()
    ensures DefaultMapping.Keys == {VbLeft, VbDown, VbRight, VbUp} + set n | 1 <= n <= 8 :: ActionKey(n)
  {
  }
}
