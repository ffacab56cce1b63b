/**
 * The per-sample detection loop: the class detected in each sampled frame
 * is compared with the previous one, and a change that the rule table
 * names is logged as an eclipse stage with its wall-clock time and the name
 * of the snapshot saved for it.
 */
module Detector {
  import opened Wrappers
  import opened Text
  import opened Timestamps

  /** A class name of the detection model. */
  type Label = string

  /**
   * One sampled frame: whole seconds since the start of the video and the
   * class of the most confident box, or `None` when nothing was detected.
   */
  datatype Sample = Sample(seconds: nat, found: Option<Label>)

  /** A logged stage: its name, its `HH:MM:SS` time and its snapshot file name. */
  datatype Event = Event(stage: string, timestamp: string, snapshot: string)

  /** A rule-named change of class, found at the sample `seconds` into the video. */
  datatype Change = Change(stage: string, seconds: nat)

  /** Transition rules: (previous class, current class) to stage name. */
  type Rules = map<(Label, Label), string>

  const Sun: Label := "Sun"
  const Partial: Label := "Partial Solar Eclipse"
  const Total: Label := "Total Solar Eclipse"
  const Annular: Label := "Annular Solar Eclipse"

  /** The application's rule table. */
  const Transitions: Rules := map[
    (Sun, Partial) := "Awal gerhana matahari sebagian",
    (Partial, Sun) := "Akhir gerhana matahari sebagian",
    (Partial, Total) := "Awal gerhana matahari total",
    (Total, Partial) := "Akhir gerhana matahari total",
    (Partial, Annular) := "Awal gerhana matahari cincin",
    (Annular, Partial) := "Akhir gerhana matahari cincin"
  ]

  // ---------------------------------------------------------------------------
  // The rule table
  // ---------------------------------------------------------------------------

  // Facts about the application's table. The first one makes the loop's
  // `current_class != prev_class` test redundant for it (see StepWithTransitions).

  /** No rule is keyed by a class followed by itself. */
  lemma TransitionsHaveNoSelfPair()
    ensures forall key :: key in Transitions ==> key.0 != key.1
  {
  }

  /** Every rule can be undone: the reversed pair is a rule too. */
  lemma TransitionsAreReversible()
    ensures forall key :: key in Transitions ==> (key.1, key.0) in Transitions
  {
  }

  /** Every rule enters or leaves the partial phase. */
  lemma TransitionsPassThroughPartial()
    ensures forall key :: key in Transitions ==> key.0 == Partial || key.1 == Partial
  {
  }

  /** Different rules name different stages. */
  lemma TransitionsNameStagesOnce(k1: (Label, Label), k2: (Label, Label))
    requires k1 in Transitions && k2 in Transitions
    requires Transitions[k1] == Transitions[k2]
    ensures k1 == k2
  {
  }

  // ---------------------------------------------------------------------------
  // Snapshot names
  // ---------------------------------------------------------------------------

  /**
   * The snapshot file name: the stage with spaces turned into underscores, an
   * underscore, the time with colons turned into dashes, and `.jpg`.
   */
  function SnapshotName(stage: string, stamp: string): string
  {
    Replace(stage, ' ', '_') + "_" + Replace(stamp, ':', '-') + ".jpg"
  }

  /**
   * A snapshot name ends in `.jpg`, has no space when the time has none and
   * no colon when the stage has none.
   */
  lemma SnapshotNameShape(stage: string, stamp: string)
    ensures var name := SnapshotName(stage, stamp);
      && |name| == |stage| + |stamp| + 5
      && name[|name| - 4..] == ".jpg"
      && name[|stage|] == '_'
      && (' ' !in stamp ==> ' ' !in name)
      && (':' !in stage ==> ':' !in name)
  {
    var r1, r2 := Replace(stage, ' ', '_'), Replace(stamp, ':', '-');
    assert forall i :: 0 <= i < |r1| ==> r1[i] != ' ';
    assert forall i :: 0 <= i < |r2| ==> r2[i] != ':';
  }

  /** The stage and the time can be read back off the snapshot name's parts. */
  lemma SnapshotNameParts(stage: string, stamp: string)
    ensures var name := SnapshotName(stage, stamp);
      && name[..|stage|] == Replace(stage, ' ', '_')
      && name[|stage| + 1..|stage| + 1 + |stamp|] == Replace(stamp, ':', '-')
  {
  }

  /** Two detections of one stage at different times never overwrite each other's snapshot. */
  lemma SnapshotNamesDistinct(stage: string, t1: int, t2: int)
    requires InTimedeltaRange(t1) && InTimedeltaRange(t2)
    requires t1 != t2
    ensures SnapshotName(stage, FormatTimestamp(t1)) != SnapshotName(stage, FormatTimestamp(t2))
  {
    var a, b := FormatTimestamp(t1), FormatTimestamp(t2);
    if SnapshotName(stage, a) == SnapshotName(stage, b) {
      SnapshotNameParts(stage, a);
      SnapshotNameParts(stage, b);
      assert |a| == |b|;
      FormatTimestampShape(t1);
      FormatTimestampShape(t2);
      ReplaceInjective(a, b, ':', '-');
      FormatTimestampInjective(t1, t2);
      assert false;
    }
  }

  /**
   * The event logged for a stage found at `moment`, the start of the video
   * plus the seconds elapsed.
   */
  function MakeEvent(stage: string, moment: int): (e: Event)
    ensures e.stage == stage
    ensures e.timestamp == FormatTimestamp(moment)
    ensures e.snapshot == SnapshotName(e.stage, e.timestamp)
  {
    var stamp := FormatTimestamp(moment);
    Event(stage, stamp, SnapshotName(stage, stamp))
  }

  /**
   * An event's time reads back, with the start-time parser, as the moment it
   * was logged at: the log loses no time information.
   */
  lemma EventTimeReadsBack(stage: string, moment: int)
    requires InTimedeltaRange(moment)
    ensures ParseTimeString(MakeEvent(stage, moment).timestamp) == Ok(moment)
  {
    FormatThenParse(moment);
  }

  /**
   * Two events of one stage logged at different moments keep apart: their
   * times differ, and so do their snapshot names.
   */
  lemma EventsApartInTime(stage: string, t1: int, t2: int)
    requires InTimedeltaRange(t1) && InTimedeltaRange(t2) && t1 != t2
    ensures MakeEvent(stage, t1).timestamp != MakeEvent(stage, t2).timestamp
    ensures MakeEvent(stage, t1).snapshot != MakeEvent(stage, t2).snapshot
  {
    if FormatTimestamp(t1) == FormatTimestamp(t2) {
      FormatTimestampInjective(t1, t2);
      assert false;
    }
    SnapshotNamesDistinct(stage, t1, t2);
  }

  /** The event for a change found `change.seconds` into a video that starts at `start`. */
  function ChangeEvent(start: int, change: Change): Event
  {
    MakeEvent(change.stage, start + change.seconds)
  }

  /** The events logged for a run of changes, one each, in order. */
  function Events(start: int, changes: seq<Change>): (events: seq<Event>)
    ensures |events| == |changes|
  {
    if |changes| == 0 then []
    else Events(start, changes[..|changes| - 1]) + [ChangeEvent(start, changes[|changes| - 1])]
  }

  /** The event at a position of the log is the one for the change at that position. */
  lemma {:induction false} EventAt(start: int, changes: seq<Change>, i: nat)
    requires i < |changes|
    ensures Events(start, changes)[i] == ChangeEvent(start, changes[i])
  {
    if i < |changes| - 1 {
      EventAt(start, changes[..|changes| - 1], i);
    }
  }

  // ---------------------------------------------------------------------------
  // One sample
  // ---------------------------------------------------------------------------

  /** The detector's state between samples: the last class seen, and the changes so far. */
  datatype Scan = Scan(prev: Option<Label>, changes: seq<Change>)

  /**
   * One sample: a detection becomes the previous class, and is a change when
   * it differs from a previous class and the pair is a rule.
   */
  function Step(rules: Rules, prev: Option<Label>, sample: Sample): (r: (Option<Label>, Option<Change>))
    ensures sample.found.None? ==> r == (prev, None)
    ensures sample.found.Some? ==> r.0 == sample.found
    ensures r.1.Some? <==>
      && sample.found.Some? && prev.Some?
      && sample.found.value != prev.value
      && (prev.value, sample.found.value) in rules
    ensures r.1.Some? ==>
      r.1.value == Change(rules[(prev.value, sample.found.value)], sample.seconds)
  {
    match sample.found
    case None => (prev, None)
    case Some(current) =>
      if prev.Some? && current != prev.value && (prev.value, current) in rules then
        (Some(current), Some(Change(rules[(prev.value, current)], sample.seconds)))
      else
        (Some(current), None)
  }

  /**
   * With the application's table, a change needs only a previous class and a
   * rule for the pair: no rule pairs a class with itself.
   */
  lemma StepWithTransitions(prev: Option<Label>, sample: Sample)
    ensures Step(Transitions, prev, sample).1.Some? <==>
      && sample.found.Some? && prev.Some?
      && (prev.value, sample.found.value) in Transitions
  {
    TransitionsHaveNoSelfPair();
  }

  /** The state after the given samples, starting with no previous class and no changes. */
  function Run(rules: Rules, samples: seq<Sample>): Scan
  {
    if |samples| == 0 then Scan(None, [])
    else
      var before := Run(rules, samples[..|samples| - 1]);
      var (prev, change) := Step(rules, before.prev, samples[|samples| - 1]);
      Scan(prev, before.changes + if change.Some? then [change.value] else [])
  }

  /** The log of a video that starts at `start`. */
  function Detect(rules: Rules, start: int, samples: seq<Sample>): seq<Event>
  {
    Events(start, Run(rules, samples).changes)
  }

  // ---------------------------------------------------------------------------
  // The loop over the sampled frames
  // ---------------------------------------------------------------------------

  /**
   * The detection loop over the sampled frames; the application passes its
   * rule table `Transitions`. The saved list is the log of all samples.
   */
  method DetectStages(rules: Rules, start: int, samples: array<Sample>) returns (saved: seq<Event>)
    ensures saved == Detect(rules, start, samples[..])
  {
    var prev: Option<Label> := None;
    saved := [];
    ghost var changes: seq<Change> := [];
    var i := 0;
    while i < samples.Length
      invariant 0 <= i <= samples.Length
      invariant Scan(prev, changes) == Run(rules, samples[..i])
      invariant saved == Events(start, changes)
    {
      var sample := samples[i];
      ghost var next := Step(rules, prev, sample);
      assert Run(rules, samples[..i + 1])
        == Scan(next.0, changes + if next.1.Some? then [next.1.value] else []) by {
        assert samples[..i + 1][..i] == samples[..i];
      }
      if sample.found.Some? {
        var current := sample.found.value;
        if prev.Some? && current != prev.value {
          var transition := (prev.value, current);
          if transition in rules {
            var change := Change(rules[transition], sample.seconds);
            saved := saved + [ChangeEvent(start, change)];
            EventsAppend(start, changes, change);
            changes := changes + [change];
          } else {
            assert next.1.None?;
          }
        } else {
          assert next.1.None?;
        }
        prev := Some(current);
      }
      i := i + 1;
    }
    assert samples[..i] == samples[..];
  }

  /** A change appended to the run appends its event to the log. */
  lemma EventsAppend(start: int, changes: seq<Change>, c: Change)
    ensures Events(start, changes + [c]) == Events(start, changes) + [ChangeEvent(start, c)]
  {
    assert (changes + [c])[..|changes|] == changes;
  }

  // ---------------------------------------------------------------------------
  // What the scan logs
  // ---------------------------------------------------------------------------

  /** A sample in which the model detected something. */
  datatype Detection = Detection(seconds: nat, found: Label)

  /** The samples with a detection, in order; the others are dropped. */
  function Detections(samples: seq<Sample>): (d: seq<Detection>)
    ensures |d| <= |samples|
  {
    if |samples| == 0 then []
    else
      var last := samples[|samples| - 1];
      Detections(samples[..|samples| - 1])
        + if last.found.Some? then [Detection(last.seconds, last.found.value)] else []
  }

  /** The class of the last detection, if there was one. */
  function LastFound(d: seq<Detection>): Option<Label>
  {
    if |d| == 0 then None else Some(d[|d| - 1].found)
  }

  /**
   * The reference: one change for each pair of consecutive detections whose
   * classes differ and form a rule, at the later detection.
   */
  function Changes(rules: Rules, d: seq<Detection>): seq<Change>
  {
    if |d| < 2 then []
    else
      var a, b := d[|d| - 2], d[|d| - 1];
      Changes(rules, d[..|d| - 1])
        + if a.found != b.found && (a.found, b.found) in rules
          then [Change(rules[(a.found, b.found)], b.seconds)]
          else []
  }

  /**
   * The scan is the reference: its previous class is the last detected class
   * and its changes are exactly the rule-named changes between consecutive
   * detections, in order.
   */
  lemma {:induction false} RunIsChanges(rules: Rules, samples: seq<Sample>)
    ensures Run(rules, samples).prev == LastFound(Detections(samples))
    ensures Run(rules, samples).changes == Changes(rules, Detections(samples))
  {
    if |samples| > 0 {
      var init := samples[..|samples| - 1];
      var last := samples[|samples| - 1];
      RunIsChanges(rules, init);
      var before := Run(rules, init);
      var next := Step(rules, before.prev, last);
      assert Run(rules, samples)
        == Scan(next.0, before.changes + if next.1.Some? then [next.1.value] else []);
      var d := Detections(init);
      if last.found.Some? {
        var x := Detection(last.seconds, last.found.value);
        assert Detections(samples) == d + [x];
        ChangesAppend(rules, d, x);
      } else {
        assert Detections(samples) == d;
      }
    }
  }

  /** A new detection adds at most the change from the previous detection. */
  lemma ChangesAppend(rules: Rules, d: seq<Detection>, x: Detection)
    ensures Changes(rules, d + [x]) == Changes(rules, d)
      + if |d| > 0 && d[|d| - 1].found != x.found && (d[|d| - 1].found, x.found) in rules
        then [Change(rules[(d[|d| - 1].found, x.found)], x.seconds)]
        else []
  {
    var d' := d + [x];
    assert d'[..|d'| - 1] == d;
  }

  /** Samples without a detection change nothing: only the detections decide the log. */
  lemma OnlyDetectionsMatter(rules: Rules, start: int, s1: seq<Sample>, s2: seq<Sample>)
    requires Detections(s1) == Detections(s2)
    ensures Run(rules, s1) == Run(rules, s2)
    ensures Detect(rules, start, s1) == Detect(rules, start, s2)
  {
    RunIsChanges(rules, s1);
    RunIsChanges(rules, s2);
  }

  /** Consecutive detections give one change at most, and the first detection none. */
  lemma {:induction false} ChangesBound(rules: Rules, d: seq<Detection>)
    ensures |d| > 0 ==> |Changes(rules, d)| <= |d| - 1
    ensures |d| == 0 ==> Changes(rules, d) == []
  {
    if |d| >= 2 {
      ChangesBound(rules, d[..|d| - 1]);
    }
  }

  /** The log never holds more events than there were detections after the first. */
  lemma SavedBound(rules: Rules, start: int, samples: seq<Sample>)
    ensures |Detect(rules, start, samples)| + (if |Detections(samples)| > 0 then 1 else 0)
      <= |Detections(samples)|
  {
    RunIsChanges(rules, samples);
    ChangesBound(rules, Detections(samples));
  }

  /** Every change is a stage the rules name. */
  lemma {:induction false} ChangesAreRuleStages(rules: Rules, d: seq<Detection>)
    ensures forall c :: c in Changes(rules, d) ==> c.stage in rules.Values
  {
    if |d| >= 2 {
      var init := d[..|d| - 1];
      ChangesAreRuleStages(rules, init);
      var a, b := d[|d| - 2], d[|d| - 1];
      if a.found != b.found && (a.found, b.found) in rules {
        var c := Change(rules[(a.found, b.found)], b.seconds);
        assert c.stage in rules.Values;
        assert Changes(rules, d) == Changes(rules, init) + [c];
      } else {
        assert Changes(rules, d) == Changes(rules, init);
      }
    }
  }

  /** Every event the application logs names one of its stages. */
  lemma SavedStagesAreTransitions(start: int, samples: seq<Sample>)
    ensures var log := Detect(Transitions, start, samples);
      forall i :: 0 <= i < |log| ==> log[i].stage in Transitions.Values
  {
    var changes := Run(Transitions, samples).changes;
    RunIsChanges(Transitions, samples);
    ChangesAreRuleStages(Transitions, Detections(samples));
    var log := Detect(Transitions, start, samples);
    forall i | 0 <= i < |log|
      ensures log[i].stage in Transitions.Values
    {
      EventAt(start, changes, i);
      assert changes[i] in changes;
    }
  }

  /**
   * The log holds one event per change, in order: named after the change's
   * stage, stamped with the start time plus the change's seconds, and
   * carrying the snapshot name built from both.
   */
  lemma SavedEventsAreStamped(rules: Rules, start: int, samples: seq<Sample>)
    ensures var changes, log := Run(rules, samples).changes, Detect(rules, start, samples);
      && |log| == |changes|
      && forall i :: 0 <= i < |log| ==>
        && log[i].stage == changes[i].stage
        && log[i].timestamp == FormatTimestamp(start + changes[i].seconds)
        && log[i].snapshot == SnapshotName(log[i].stage, log[i].timestamp)
  {
    var changes := Run(rules, samples).changes;
    forall i | 0 <= i < |changes|
      ensures Detect(rules, start, samples)[i] == ChangeEvent(start, changes[i])
    {
      EventAt(start, changes, i);
    }
  }

  /** Every change happens at one of the samples. */
  lemma {:induction false} ChangesAtSamples(rules: Rules, samples: seq<Sample>)
    ensures forall c :: c in Run(rules, samples).changes ==>
      exists k :: 0 <= k < |samples| && c.seconds == samples[k].seconds
  {
    if |samples| > 0 {
      var init := samples[..|samples| - 1];
      ChangesAtSamples(rules, init);
      forall c | c in Run(rules, samples).changes
        ensures exists k :: 0 <= k < |samples| && c.seconds == samples[k].seconds
      {
        if c in Run(rules, init).changes {
          var k :| 0 <= k < |init| && c.seconds == init[k].seconds;
          assert samples[k] == init[k];
        } else {
          assert c.seconds == samples[|samples| - 1].seconds;
        }
      }
    }
  }

  /** Later samples only append to the changes: those already found stay, in order. */
  lemma {:induction false} RunAppendsOnly(rules: Rules, s: seq<Sample>, t: seq<Sample>)
    ensures Run(rules, s).changes <= Run(rules, s + t).changes
  {
    if |t| > 0 {
      var t' := t[..|t| - 1];
      RunAppendsOnly(rules, s, t');
      assert (s + t)[..|s + t| - 1] == s + t';
    } else {
      assert s + t == s;
    }
  }

  /** Later samples only append to the log. */
  lemma DetectAppendsOnly(rules: Rules, start: int, s: seq<Sample>, t: seq<Sample>)
    ensures Detect(rules, start, s) <= Detect(rules, start, s + t)
  {
    RunAppendsOnly(rules, s, t);
    EventsPrefix(start, Run(rules, s).changes, Run(rules, s + t).changes);
  }

  /** The events of a prefix of the changes are a prefix of the log. */
  lemma {:induction false} EventsPrefix(start: int, a: seq<Change>, b: seq<Change>)
    requires a <= b
    ensures Events(start, a) <= Events(start, b)
  {
    if |a| < |b| {
      EventsPrefix(start, a, b[..|b| - 1]);
    } else {
      assert a == b;
    }
  }

  /** A detection repeating the previous class, or arriving first, logs nothing. */
  lemma RepeatOrFirstLogsNothing(rules: Rules, samples: seq<Sample>, x: Sample)
    requires x.found.Some?
    requires Run(rules, samples).prev in {None, x.found}
    ensures Run(rules, samples + [x]).changes == Run(rules, samples).changes
    ensures Run(rules, samples + [x]).prev == x.found
  {
    assert (samples + [x])[..|samples|] == samples;
  }
}
