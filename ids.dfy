/**
 * `Task._generate_id`: the id of a new task is `TASK_` followed by the local time of
 * its creation as `strftime('%Y%m%d_%H%M%S')`. The clock reading is a parameter.
 */
module TaskIds {
  import opened Numerals

  /** One reading of `datetime.now()`, to the second. */
  datatype Stamp = Stamp(year: nat, month: nat, day: nat, hour: nat, minute: nat, second: nat)

  /** The ranges `datetime` keeps its fields in. */
  predicate IsClockReading(s: Stamp) {
    1 <= s.year <= 9999 && 1 <= s.month <= 12 && 1 <= s.day <= 31
    && s.hour < 24 && s.minute < 60 && s.second < 60
  }

  /** `f"TASK_{now.strftime('%Y%m%d_%H%M%S')}"`. */
  function GenerateId(s: Stamp): string {
    "TASK_" + Pad(s.year, 4) + Pad(s.month, 2) + Pad(s.day, 2)
    + "_" + Pad(s.hour, 2) + Pad(s.minute, 2) + Pad(s.second, 2)
  }

  /** A generated id starts with `TASK_`, is 20 characters long and is never empty. */
  lemma GenerateIdShape(s: Stamp)
    ensures |GenerateId(s)| == 20
    ensures GenerateId(s)[..5] == "TASK_" && GenerateId(s)[13] == '_'
    ensures GenerateId(s) != ""
  {
    var head := "TASK_" + Pad(s.year, 4) + Pad(s.month, 2) + Pad(s.day, 2);
    assert GenerateId(s) == head + "_" + (Pad(s.hour, 2) + Pad(s.minute, 2) + Pad(s.second, 2));
    assert |head| == 13;
  }

  /**
   * Two clock readings give the same id exactly when they fall in the same second:
   * tasks created within one second collide, and ids never collide otherwise.
   */
  lemma {:induction false} GenerateIdInjective(a: Stamp, b: Stamp)
    requires IsClockReading(a) && IsClockReading(b)
    ensures GenerateId(a) == GenerateId(b) <==> a == b
  {
    if GenerateId(a) == GenerateId(b) {
      GenerateIdFields(a);
      GenerateIdFields(b);
      assert Pow10(2) == 100 && Pow10(4) == 10000;
      PadInjective(a.year, b.year, 4);
      PadInjective(a.month, b.month, 2);
      PadInjective(a.day, b.day, 2);
      PadInjective(a.hour, b.hour, 2);
      PadInjective(a.minute, b.minute, 2);
      PadInjective(a.second, b.second, 2);
    }
  }

  /** Where each field of the clock reading sits in the id. */
  lemma GenerateIdFields(s: Stamp)
    ensures |GenerateId(s)| == 20
    ensures GenerateId(s)[5..9] == Pad(s.year, 4)
    ensures GenerateId(s)[9..11] == Pad(s.month, 2) && GenerateId(s)[11..13] == Pad(s.day, 2)
    ensures GenerateId(s)[14..16] == Pad(s.hour, 2) && GenerateId(s)[16..18] == Pad(s.minute, 2)
    ensures GenerateId(s)[18..20] == Pad(s.second, 2)
  {
    var x := GenerateId(s);
    assert x[5..9] == Pad(s.year, 4);
    assert x[9..11] == Pad(s.month, 2) && x[11..13] == Pad(s.day, 2);
    assert x[14..16] == Pad(s.hour, 2) && x[16..18] == Pad(s.minute, 2);
  }
}
