/**
 * Worked inputs: two stamps at the edges of the format, and a short session.
 */
module Examples {
  import opened Wrappers
  import opened Text
  import opened Timestamps
  import opened Detector

  /** Hours are not reduced modulo a day. */
  lemma FormatPastOneDay()
    ensures FormatTimestamp(90000) == "25:00:00"
  {
    FormatTimestampFields(90000, 25, 0, 0);
    assert Decimal(25) == "25";
  }

  /** A negative total puts the sign on the hours only, which are rounded down. */
  lemma FormatNegative()
    ensures FormatTimestamp(-5) == "-1:59:55"
  {
    FormatTimestampFields(-5, -1, 59, 55);
    assert Decimal(1) == "1" && Decimal(59) == "59" && Decimal(55) == "55";
  }

  /**
   * The largest start time the parser accepts, `86399999999999` seconds, is a
   * `timedelta` one second short of its limit: adding the first second of the
   * video leaves the range.
   */
  lemma StartAtEdgeOfRange()
    ensures InTimedeltaRange(86399999999999)
    ensures !InTimedeltaRange(86399999999999 + 1)
  {
    TimedeltaRangeInSeconds(86399999999999);
    TimedeltaRangeInSeconds(86399999999999 + 1);
  }

  /**
   * A session that sees one class, nothing, a second class twice and the
   * first again logs the change into the second class at the second second
   * and the change back at the fourth, when the rules name both.
   */
  lemma ThereAndBack(rules: Rules, a: Label, b: Label)
    requires a != b && (a, b) in rules && (b, a) in rules
    ensures Run(rules, [
      Sample(0, Some(a)), Sample(1, None), Sample(2, Some(b)),
      Sample(3, Some(b)), Sample(4, Some(a))]).changes
      == [Change(rules[(a, b)], 2), Change(rules[(b, a)], 4)]
  {
    var there := Change(rules[(a, b)], 2);
    var back := Change(rules[(b, a)], 4);
    var s := [
      Sample(0, Some(a)), Sample(1, None), Sample(2, Some(b)),
      Sample(3, Some(b)), Sample(4, Some(a))];
    assert Run(rules, s[..1]) == Scan(Some(a), []) by {
      assert s[..1][..0] == [];
    }
    assert Run(rules, s[..2]) == Scan(Some(a), []) by {
      assert s[..2][..1] == s[..1];
    }
    assert Run(rules, s[..3]) == Scan(Some(b), [there]) by {
      assert s[..3][..2] == s[..2];
    }
    assert Run(rules, s[..4]) == Scan(Some(b), [there]) by {
      assert s[..4][..3] == s[..3];
    }
    assert Run(rules, s) == Scan(Some(a), [there, back]) by {
      assert s[..4] == s[..|s| - 1];
    }
  }

  /** With the application's table: the start and the end of a partial eclipse. */
  lemma PartialEclipseSession()
    ensures Run(Transitions, [
      Sample(0, Some(Sun)), Sample(1, None), Sample(2, Some(Partial)),
      Sample(3, Some(Partial)), Sample(4, Some(Sun))]).changes
      == [Change("Awal gerhana matahari sebagian", 2),
          Change("Akhir gerhana matahari sebagian", 4)]
  {
    ThereAndBack(Transitions, Sun, Partial);
  }
}
