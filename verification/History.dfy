/** The history of a node: a file that grows by one line a minute, and a bounded copy in memory for queries. */
module History {
  import opened Base

  // Times are seconds.
  const RETENTION := 604800
  const SAMPLE_PERIOD := 60
  const PRUNE_PERIOD := 3600

  datatype Sample = Sample(time: nat, metrics: int)

  /** A line of the file: a sample, or something that cannot be read as one. */
  datatype Line = Good(sample: Sample) | Junk

  function Bucket(now: nat): nat {
    now - now % SAMPLE_PERIOD
  }

  // ---- Sequences of samples --------------------------------------------------------------------------------------

  predicate Rising(s: seq<Sample>) {
    forall i, j :: 0 <= i < j < |s| ==> s[i].time < s[j].time
  }

  /** The samples after a moment. */
  function After(s: seq<Sample>, cutoff: int): seq<Sample> {
    if s == [] then []
    else if s[0].time > cutoff then [s[0]] + After(s[1..], cutoff)
    else After(s[1..], cutoff)
  }

  /** The first position after a moment, as a search in a rising sequence finds it. */
  function FirstAfter(s: seq<Sample>, cutoff: int): (n: nat)
    ensures n <= |s|
  {
    if s == [] || s[0].time > cutoff then 0 else 1 + FirstAfter(s[1..], cutoff)
  }

  lemma {:induction false} SearchFilters(s: seq<Sample>, cutoff: int)
    requires Rising(s)
    ensures s[FirstAfter(s, cutoff)..] == After(s, cutoff)
    ensures forall i :: 0 <= i < FirstAfter(s, cutoff) ==> s[i].time <= cutoff
    ensures forall i :: FirstAfter(s, cutoff) <= i < |s| ==> s[i].time > cutoff
  {
    if s != [] {
      assert forall i :: 0 <= i < |s[1..]| ==> s[1..][i] == s[i + 1];
      SearchFilters(s[1..], cutoff);
      if s[0].time > cutoff {
        AllAfter(s, cutoff);
        assert s[0..] == s;
      } else {
        assert s[FirstAfter(s, cutoff)..] == s[1..][FirstAfter(s[1..], cutoff)..];
        forall i | FirstAfter(s, cutoff) <= i < |s|
          ensures s[i].time > cutoff
        {
          assert s[1..][i - 1] == s[i];
        }
        forall i | 0 <= i < FirstAfter(s, cutoff)
          ensures s[i].time <= cutoff
        {
          if i > 0 {
            assert s[1..][i - 1] == s[i];
          }
        }
      }
    }
  }

  lemma {:induction false} AllAfter(s: seq<Sample>, cutoff: int)
    requires forall i :: 0 <= i < |s| ==> s[i].time > cutoff
    ensures After(s, cutoff) == s
  {
    if s != [] {
      AllAfter(s[1..], cutoff);
    }
  }

  lemma {:induction false} NoneAfter(s: seq<Sample>, cutoff: int)
    requires forall i :: 0 <= i < |s| ==> s[i].time <= cutoff
    ensures After(s, cutoff) == []
  {
    if s != [] {
      NoneAfter(s[1..], cutoff);
    }
  }

  lemma {:induction false} AfterAppends(a: seq<Sample>, b: seq<Sample>, cutoff: int)
    ensures After(a + b, cutoff) == After(a, cutoff) + After(b, cutoff)
    decreases a
  {
    if a == [] {
      assert a + b == b;
    } else {
      assert (a + b)[1..] == a[1..] + b;
      AfterAppends(a[1..], b, cutoff);
    }
  }

  /** `s` is the end of `log`, and what comes before it is older than the cutoff. */
  ghost predicate CoversSince(s: seq<Sample>, log: seq<Sample>, cutoff: int) {
    && |s| <= |log| && log[|log| - |s|..] == s
    && forall i :: 0 <= i < |log| - |s| ==> log[i].time <= cutoff
  }

  /** A copy that covers everything since a moment answers queries from that moment on like the log itself. */
  lemma CoveredAnswers(s: seq<Sample>, log: seq<Sample>, covered: int, cutoff: int)
    requires CoversSince(s, log, covered) && covered <= cutoff
    ensures After(s, cutoff) == After(log, cutoff)
  {
    hide After;
    var n := |log| - |s|;
    assert log == log[..n] + s;
    assert [] + After(s, cutoff) == After(s, cutoff);
    NoneAfter(log[..n], cutoff);
    AfterAppends(log[..n], s, cutoff);
  }

  // ---- Loading ---------------------------------------------------------------------------------------------------

  /** Reading lines: anything unreadable, too old, or not later than what was kept is skipped. */
  function Parse(lines: seq<Line>, cutoff: int, kept: seq<Sample>): seq<Sample>
    decreases |lines|
  {
    if lines == [] then kept
    else
      var usable := lines[0].Good? && lines[0].sample.time >= cutoff
                    && (kept == [] || lines[0].sample.time > kept[|kept| - 1].time);
      Parse(lines[1..], cutoff, if usable then kept + [lines[0].sample] else kept)
  }

  function Lines(s: seq<Sample>): seq<Line> {
    seq(|s|, i requires 0 <= i < |s| => Good(s[i]))
  }

  function AtLeast(s: seq<Sample>, cutoff: int): seq<Sample> {
    After(s, cutoff - 1)
  }

  /** Written samples are read back, apart from those that are too old. */
  lemma {:induction false} LinesAreParsed(s: seq<Sample>, cutoff: int, kept: seq<Sample>)
    requires Rising(kept + s)
    ensures Parse(Lines(s), cutoff, kept) == kept + AtLeast(s, cutoff)
    decreases |s|
  {
    hide Rising;
    if s == [] {
      assert kept + [] == kept;
    } else {
      assert Lines(s)[1..] == Lines(s[1..]) && Lines(s)[0] == Good(s[0]);
      HeadIsLater(kept, s);
      if s[0].time >= cutoff {
        assert kept + [s[0]] + s[1..] == kept + s;
        LinesAreParsed(s[1..], cutoff, kept + [s[0]]);
        assert kept + [s[0]] + AtLeast(s[1..], cutoff) == kept + ([s[0]] + AtLeast(s[1..], cutoff));
      } else {
        RisingWithout(kept, s);
        LinesAreParsed(s[1..], cutoff, kept);
      }
    }
  }

  lemma HeadIsLater(kept: seq<Sample>, s: seq<Sample>)
    requires s != [] && Rising(kept + s)
    ensures kept != [] ==> kept[|kept| - 1].time < s[0].time
  {
    assert (kept + s)[|kept|] == s[0];
    assert kept != [] ==> (kept + s)[|kept| - 1] == kept[|kept| - 1];
  }

  lemma RisingWithout(kept: seq<Sample>, s: seq<Sample>)
    requires s != [] && Rising(kept + s)
    ensures Rising(kept + s[1..])
  {
    var all, less := kept + s, kept + s[1..];
    forall i, j | 0 <= i < j < |less|
      ensures less[i].time < less[j].time
    {
      var i', j' := if i < |kept| then i else i + 1, if j < |kept| then j else j + 1;
      assert less[i] == all[i'] && less[j] == all[j'] && i' < j';
    }
  }

  // ---- What the store keeps ----------------------------------------------------------------------------------------

  ghost predicate LogHolds(log: seq<Sample>, clock: nat) {
    Rising(log) && forall i :: 0 <= i < |log| ==> log[i].time <= clock
  }

  /** The last minute recorded, unless it is beyond the retention. */
  ghost predicate BucketHolds(lastBucket: Option<nat>, log: seq<Sample>, clock: nat) {
    if lastBucket.Some? then log != [] && lastBucket.value == log[|log| - 1].time
    else forall i :: 0 <= i < |log| ==> log[i].time <= clock - RETENTION
  }

  /** The file is whole and holds everything since the retention began. */
  ghost predicate FileHolds(file: seq<Line>, torn: bool, log: seq<Sample>, cutoff: int) {
    !torn && exists kept: seq<Sample> :: file == Lines(kept) && CoversSince(kept, log, cutoff)
  }

  lemma FileHoldsLater(file: seq<Line>, torn: bool, log: seq<Sample>, cutoff: int, later: int)
    requires FileHolds(file, torn, log, cutoff) && cutoff <= later
    ensures FileHolds(file, torn, log, later)
  {
    var kept :| file == Lines(kept) && CoversSince(kept, log, cutoff);
    assert CoversSince(kept, log, later);
  }

  lemma FileGrows(file: seq<Line>, log: seq<Sample>, cutoff: int, sample: Sample)
    requires FileHolds(file, false, log, cutoff)
    ensures FileHolds(file + [Good(sample)], false, log + [sample], cutoff)
  {
    var kept :| file == Lines(kept) && CoversSince(kept, log, cutoff);
    Grows(kept, log, cutoff, sample);
    assert Lines(kept + [sample]) == Lines(kept) + [Good(sample)];
  }

  lemma FileRewritten(samples: seq<Sample>, log: seq<Sample>, cutoff: int)
    requires CoversSince(samples, log, cutoff)
    ensures FileHolds(Lines(samples), false, log, cutoff)
  {
  }

  lemma LinesDiffer(a: seq<Sample>, b: seq<Sample>)
    requires Lines(a) == Lines(b)
    ensures a == b
  {
    forall i | 0 <= i < |a| ensures a[i] == b[i] {
      assert Lines(a)[i] == Lines(b)[i];
    }
    assert |Lines(a)| == |Lines(b)|;
  }

  /**
   A file rewritten from memory that keeps only the end of the log is complete if and only if what memory lacks is
   beyond the retention.
   */
  lemma RewrittenExactly(samples: seq<Sample>, log: seq<Sample>, cutoff: int)
    requires |samples| <= |log| && log[|log| - |samples|..] == samples
    ensures FileHolds(Lines(samples), false, log, cutoff)
            <==> forall i :: 0 <= i < |log| - |samples| ==> log[i].time <= cutoff
  {
    if FileHolds(Lines(samples), false, log, cutoff) {
      var kept :| Lines(samples) == Lines(kept) && CoversSince(kept, log, cutoff);
      LinesDiffer(samples, kept);
    } else {
      assert !CoversSince(samples, log, cutoff);
    }
  }

  /** Two minutes were recorded; the file could not be opened in between, and is rewritten with the second one. */
  lemma RewriteExample()
    ensures var first, second := Sample(0, 1), Sample(SAMPLE_PERIOD, 2);
            !FileHolds(Lines([second]), false, [first, second], SAMPLE_PERIOD - RETENTION)
  {
    var log := [Sample(0, 1), Sample(SAMPLE_PERIOD, 2)];
    assert log[1..] == [log[1]];
    assert log[0].time > SAMPLE_PERIOD - RETENTION;
    RewrittenExactly([log[1]], log, SAMPLE_PERIOD - RETENTION);
  }

  /** A new minute is later than everything recorded. */
  lemma LogGrows(log: seq<Sample>, lastBucket: Option<nat>, now: nat, sample: Sample)
    requires LogHolds(log, now) && BucketHolds(lastBucket, log, now)
    requires sample.time == Bucket(now) && (lastBucket.Some? ==> sample.time > lastBucket.value)
    ensures LogHolds(log + [sample], now) && BucketHolds(Some(sample.time), log + [sample], now)
  {
    assert log != [] ==> log[|log| - 1].time < sample.time;
    RisesOn(log, sample);
  }

  // ---- The store -------------------------------------------------------------------------------------------------

  class HistoryStore {
    const enabled: bool
    var present: bool
    var file: seq<Line>
    var torn: bool  // the file ends in the middle of a line
    var samples: seq<Sample>
    var lastBucket: Option<nat>
    var lastPrune: Option<nat>
    ghost var log: seq<Sample>  // every sample ever recorded
    ghost var clock: nat        // the latest time seen
    ghost var whole: bool       // memory holds everything since the retention began
    ghost var faithful: bool    // so does the file

    /** An empty store without a file. */
    constructor (enabled: bool)
      ensures Valid() && this.enabled == enabled && log == [] && clock == 0 && whole && faithful
    {
      hide LogHolds, FileHolds, MemoryHolds, Ordered;
      this.enabled := enabled;
      present, file, torn, samples, lastBucket, lastPrune := false, [], false, [], None, None;
      log, clock, whole, faithful := [], 0, true, true;
      new;
      NothingYet();
    }

    ghost predicate Valid()
      reads this
    {
      && Ordered(samples, lastBucket)
      && (!present ==> file == [] && !torn)
      && (whole ==> MemoryHolds(samples, lastBucket, log, clock))
      && (faithful ==> LogHolds(log, clock) && FileHolds(file, torn, log, clock - RETENTION))
    }

    /** Time passes: older moments are covered all the more. */
    ghost method Advance(now: nat)
      requires Valid() && clock <= now
      modifies this`clock
      ensures Valid() && clock == now
    {
      if faithful {
        FileHoldsLater(file, torn, log, clock - RETENTION, now - RETENTION);
      }
      clock := now;
    }

    /** The next sample opens a new minute. */
    predicate NewMinute(now: nat)
      reads this
    {
      enabled && (lastBucket.None? || Bucket(now) > lastBucket.value)
    }

    /**
     Records at most one sample a minute. Any file operation may fail, and may leave half a line behind. While every
     append works, nothing is lost, in memory or in the file.
     */
    method Record(metrics: int, now: nat) returns (ghost appended: bool)
      requires Valid() && clock <= now
      modifies this
      ensures Valid() && clock == now && (old(whole) ==> whole)
      ensures log == if old(NewMinute(now)) then old(log) + [Sample(Bucket(now), metrics)] else old(log)
      ensures !old(NewMinute(now)) ==> appended
      ensures old(whole) && old(faithful) && appended ==> faithful
    {
      hide LogHolds, MemoryHolds, FileHolds, Bucket, Ordered, After, Lines;
      Advance(now);
      appended := true;
      if !enabled {
        return;
      }
      var bucket := Bucket(now);
      if lastBucket.Some? && bucket <= lastBucket.value {
        return;
      }
      var sample := Sample(bucket, metrics);
      ghost var before := log;
      MemoryGrows(samples, lastBucket, log, whole, now, sample);
      samples := samples + [sample];
      log := log + [sample];
      lastBucket := Some(bucket);
      appended := Persist(sample, before, now);
    }

    /** What follows a new sample in memory: the file grows, is rewritten from time to time, and memory is trimmed. */
    method Persist(sample: Sample, ghost before: seq<Sample>, now: nat) returns (written: bool)
      requires log == before + [sample] && (!present ==> file == [] && !torn) && Ordered(samples, lastBucket)
      requires clock == now && (whole ==> MemoryHolds(samples, lastBucket, log, clock))
      requires faithful ==> LogHolds(before, clock) && FileHolds(file, torn, before, clock - RETENTION)
      modifies this`samples, this`lastPrune, this`present, this`file, this`torn, this`faithful
      ensures Valid() && (old(whole) && old(faithful) && written ==> faithful)
    {
      hide LogHolds, MemoryHolds, FileHolds, Ordered, After, Lines;
      written := AppendFile(sample, before);
      if written && (lastPrune.None? || now - lastPrune.value >= PRUNE_PERIOD) {
        lastPrune := Some(now);
        PruneFile();
      }
      TrimMemory(now);
    }

    /** Appends a line; a line that follows half a line cannot be read. */
    method AppendFile(sample: Sample, ghost before: seq<Sample>) returns (ok: bool)
      requires log == before + [sample] && (!present ==> file == [] && !torn)
      requires faithful ==> LogHolds(before, clock) && FileHolds(file, torn, before, clock - RETENTION)
      requires whole ==> MemoryHolds(samples, lastBucket, log, clock)
      modifies this`present, this`file, this`torn, this`faithful
      ensures !present ==> file == [] && !torn
      ensures faithful ==> LogHolds(log, clock) && FileHolds(file, torn, log, clock - RETENTION)
      ensures ok && old(faithful) && whole ==> faithful
      ensures ok && !old(torn) ==> file == old(file) + [Good(sample)] && !torn
    {
      var ready: bool, written: bool, half: bool := *, *, *;
      if !ready {
        faithful := false;
        return false;
      }
      present := true;
      if !written {
        torn, faithful := torn || half, false;
        return false;
      }
      if torn {
        file, torn, faithful := file + [Junk], false, false;
        return true;
      }
      if faithful {
        FileGrows(file, before, clock - RETENTION, sample);
      }
      faithful := faithful && LogHolds(log, clock);
      file := file + [Good(sample)];
      ok := true;
    }

    /** Rewrites the file from memory, or leaves it alone. */
    method PruneFile()
      requires whole ==> MemoryHolds(samples, lastBucket, log, clock)
      requires faithful ==> LogHolds(log, clock) && FileHolds(file, torn, log, clock - RETENTION)
      modifies this`present, this`file, this`torn, this`faithful
      ensures faithful ==> LogHolds(log, clock) && FileHolds(file, torn, log, clock - RETENTION)
      ensures || (present == old(present) && file == old(file) && torn == old(torn) && faithful == old(faithful))
              || (present && file == Lines(samples) && !torn && faithful == whole)
    {
      hide CoversSince, FileHolds;
      if |samples| == 0 {
        return;
      }
      var created: bool, written: bool, renamed: bool := *, *, *;
      if !created || !written || !renamed {
        return;
      }
      if whole {
        FileRewritten(samples, log, clock - RETENTION);
      }
      present, file, torn, faithful := true, Lines(samples), false, whole;
    }

    /** Drops from memory what is older than the retention. */
    method TrimMemory(now: nat)
      requires Ordered(samples, lastBucket)
      requires whole ==> MemoryHolds(samples, lastBucket, log, now)
      modifies this`samples
      ensures Ordered(samples, lastBucket)
      ensures whole ==> MemoryHolds(samples, lastBucket, log, now)
      ensures samples == After(old(samples), now - RETENTION)
    {
      var index := FirstAfter(samples, now - RETENTION);
      SearchFilters(samples, now - RETENTION);
      if whole {
        Shortens(samples, log, now - RETENTION, index);
      }
      if index > 0 {
        RisingEnd(samples[index..], samples);
        samples := samples[index..];
      } else {
        assert samples[0..] == samples;
      }
    }

    /** The samples of the last minutes; all that are kept if no positive number is given. */
    method Recent(minutes: int, now: nat) returns (recent: seq<Sample>)
      requires Valid() && clock <= now
      ensures !enabled ==> recent == []
      ensures enabled && minutes > 0 ==> recent == After(samples, now - minutes * 60)
      ensures enabled && whole && 0 < minutes * 60 <= RETENTION ==> recent == After(log, now - minutes * 60)
      ensures enabled && minutes <= 0 ==> recent == samples
    {
      if !enabled {
        return [];
      }
      if whole && minutes > 0 && minutes * 60 <= RETENTION {
        CoveredAnswers(samples, log, clock - RETENTION, now - minutes * 60);
      }
      if minutes <= 0 || |samples| == 0 {
        return samples;
      }
      var cutoff := now - minutes * 60;
      SearchFilters(samples, cutoff);
      recent := samples[FirstAfter(samples, cutoff)..];
    }

    /**
     A restart: everything is read from the file again, unless the file cannot be opened (`read`), which leaves an empty
     store. A missing file has nothing to read. What was read from a faithful file is whole; an empty store is whole if
     and only if nothing recorded is within the retention.
     */
    method Load(now: nat) returns (read: bool)
      requires Valid() && clock <= now
      modifies this`samples, this`lastBucket, this`lastPrune, this`clock, this`whole
      ensures Valid() && clock == now
      ensures samples == if read then Parse(file, now - RETENTION, []) else []
      ensures lastBucket == LastTime(samples) && lastPrune == if read && present then Some(now) else None
      ensures read && faithful ==> whole
      ensures !read && old(whole) ==> (whole <==> NothingRecent(log, now))
    {
      hide LogHolds, FileHolds, MemoryHolds, Parse, Ordered, NothingRecent, CoversSince, BucketHolds, LastTime;
      Advance(now);
      var fails: bool := *;
      read := !present || !fails;
      LoadFacts(file, torn, samples, lastBucket, log, now, whole, faithful);
      if !present || fails {
        samples, lastBucket, lastPrune := [], None, None;
        whole := MemoryHolds([], None, log, now);
      } else {
        ReadFile(now);
        whole := faithful;
      }
    }

    /** Reads line by line: what is unreadable, too old or not later than what was kept is skipped. */
    method ReadFile(now: nat)
      modifies this`samples, this`lastBucket, this`lastPrune
      ensures samples == Parse(file, now - RETENTION, []) && Ordered(samples, lastBucket)
      ensures lastBucket == LastTime(samples) && lastPrune == Some(now)
    {
      var kept: seq<Sample> := [];
      for i := 0 to |file|
        invariant Parse(file[i..], now - RETENTION, kept) == Parse(file, now - RETENTION, [])
      {
        assert file[i..][0] == file[i] && file[i..][1..] == file[i + 1..];
        if file[i].Good? {
          var sample := file[i].sample;
          if sample.time >= now - RETENTION && (|kept| == 0 || sample.time > kept[|kept| - 1].time) {
            kept := kept + [sample];
          }
        }
      }
      ParseRises(file, now - RETENTION, []);
      samples, lastBucket := kept, None;
      if |samples| > 0 {
        lastBucket := Some(samples[|samples| - 1].time);
      }
      lastPrune := Some(now);
    }
  }

  /** Everything recorded is beyond the retention. */
  ghost predicate NothingRecent(log: seq<Sample>, now: nat) {
    forall i :: 0 <= i < |log| ==> log[i].time <= now - RETENTION
  }

  /** An empty memory lacks nothing exactly if everything recorded is beyond the retention. */
  lemma EmptyHolds(log: seq<Sample>, now: nat)
    ensures MemoryHolds([], None, log, now) <==> LogHolds(log, now) && NothingRecent(log, now)
    ensures Ordered([], None)
  {
    assert log[|log|..] == [];
  }

  /** What a restart can find. */
  lemma LoadFacts(file: seq<Line>, torn: bool, samples: seq<Sample>, lastBucket: Option<nat>, log: seq<Sample>, now: nat,
                  whole: bool, faithful: bool)
    requires whole ==> MemoryHolds(samples, lastBucket, log, now)
    requires faithful ==> LogHolds(log, now) && FileHolds(file, torn, log, now - RETENTION)
    ensures Ordered([], None) && LastTime([]) == None && Parse([], now - RETENTION, []) == []
    ensures whole ==> (MemoryHolds([], None, log, now) <==> NothingRecent(log, now))
    ensures faithful ==> var s := Parse(file, now - RETENTION, []); MemoryHolds(s, LastTime(s), log, now)
  {
    hide Parse, FileHolds, Rising;
    EmptyHolds(log, now);
    NoLines(now - RETENTION);
    if faithful {
      FileReloads(file, torn, log, now);
    }
  }

  function LastTime(samples: seq<Sample>): Option<nat> {
    if samples == [] then None else Some(samples[|samples| - 1].time)
  }

  ghost predicate Ordered(samples: seq<Sample>, lastBucket: Option<nat>) {
    Rising(samples) && (samples != [] ==> lastBucket == LastTime(samples))
  }

  lemma NothingYet()
    ensures Ordered([], None) && MemoryHolds([], None, [], 0)
    ensures LogHolds([], 0) && FileHolds([], false, [], 0 - RETENTION)
  {
    assert Lines([]) == [];
    FileRewritten([], [], 0 - RETENTION);
  }

  /** What memory keeps of the log. */
  ghost predicate MemoryHolds(samples: seq<Sample>, lastBucket: Option<nat>, log: seq<Sample>, clock: nat) {
    LogHolds(log, clock) && CoversSince(samples, log, clock - RETENTION) && BucketHolds(lastBucket, log, clock)
  }

  lemma MemoryGrows(samples: seq<Sample>, lastBucket: Option<nat>, log: seq<Sample>, whole: bool, now: nat, sample: Sample)
    requires Ordered(samples, lastBucket)
    requires whole ==> MemoryHolds(samples, lastBucket, log, now)
    requires sample.time == Bucket(now) && (lastBucket.Some? ==> sample.time > lastBucket.value)
    ensures Ordered(samples + [sample], Some(sample.time))
    ensures whole ==> MemoryHolds(samples + [sample], Some(sample.time), log + [sample], now)
  {
    RisesOn(samples, sample);
    if whole {
      LogGrows(log, lastBucket, now, sample);
      Grows(samples, log, now - RETENTION, sample);
    }
  }

  lemma NoLines(cutoff: int)
    ensures Parse([], cutoff, []) == []
  {
  }

  lemma {:induction false} ParseRises(lines: seq<Line>, cutoff: int, kept: seq<Sample>)
    requires Rising(kept)
    ensures Rising(Parse(lines, cutoff, kept))
    decreases |lines|
  {
    if lines != [] {
      var usable := lines[0].Good? && lines[0].sample.time >= cutoff
                    && (kept == [] || lines[0].sample.time > kept[|kept| - 1].time);
      ParseRises(lines[1..], cutoff, if usable then kept + [lines[0].sample] else kept);
    }
  }

  // ---- Runs with restarts ----------------------------------------------------------------------------------------

  /** A collection cycle, or a restart around which the history of some minutes is asked for. */
  datatype Event = Collects(metrics: int, now: nat) | Restarts(minutes: int, now: nat)

  ghost predicate InTime(events: seq<Event>, clock: nat) {
    events == [] || (clock <= events[0].now && InTime(events[1..], events[0].now))
  }

  /** The log after one more event: a collection in a new minute adds a sample. */
  function NextLog(log: seq<Sample>, e: Event): seq<Sample> {
    match e
    case Collects(metrics, now) =>
      if log == [] || Bucket(now) > log[|log| - 1].time then log + [Sample(Bucket(now), metrics)] else log
    case Restarts(_, _) => log
  }

  /** The log that a run of events amounts to. */
  function LogOf(log: seq<Sample>, events: seq<Event>): seq<Sample>
    decreases |events|
  {
    if events == [] then log else NextLog(LogOf(log, events[..|events| - 1]), events[|events| - 1])
  }

  lemma LogOfNone(log: seq<Sample>)
    ensures LogOf(log, []) == log
  {
  }

  lemma LogOfNext(log: seq<Sample>, events: seq<Event>, i: nat)
    requires i < |events|
    ensures LogOf(log, events[..i + 1]) == NextLog(LogOf(log, events[..i]), events[i])
  {
    assert events[..i + 1] == events[..i] + [events[i]];
    assert events[..i + 1][..i] == events[..i];
  }

  lemma NextInTime(events: seq<Event>, clock: nat, i: nat)
    requires i < |events| && InTime(events[i..], clock)
    ensures clock <= events[i].now && InTime(events[i + 1..], events[i].now)
  {
    assert events[i..][0] == events[i] && events[i..][1..] == events[i + 1..];
  }

  lemma NewMinuteOfLog(lastBucket: Option<nat>, log: seq<Sample>, now: nat)
    requires BucketHolds(lastBucket, log, now)
    ensures (lastBucket.None? || Bucket(now) > lastBucket.value) <==> (log == [] || Bucket(now) > log[|log| - 1].time)
  {
  }

  lemma LaterMemory(samples: seq<Sample>, lastBucket: Option<nat>, log: seq<Sample>, clock: nat, now: nat)
    requires MemoryHolds(samples, lastBucket, log, clock) && clock <= now
    ensures MemoryHolds(samples, lastBucket, log, now) && BucketHolds(lastBucket, log, now) && LogHolds(log, now)
  {
  }

  /**
   Any run of collections and restarts. If every append works and the file can be opened whenever there is one
   (`smooth`), the log is the one these events amount to, and around every restart a query within the retention gives
   what filtering that log gives, before and after.
   */
  method RunAll(h: HistoryStore, events: seq<Event>)
    returns (before: seq<seq<Sample>>, after: seq<seq<Sample>>, ghost smooth: bool)
    requires h.Valid() && h.whole && h.faithful && h.enabled && InTime(events, h.clock)
    modifies h
    ensures h.Valid() && |before| == |after| == |events|
    ensures smooth ==> h.whole && h.faithful && h.log == LogOf(old(h.log), events)
    ensures smooth ==>
              forall i :: 0 <= i < |events| && events[i].Restarts? && 0 < events[i].minutes * 60 <= RETENTION ==>
                before[i] == after[i] == After(LogOf(old(h.log), events[..i]), events[i].now - events[i].minutes * 60)
  {
    hide MemoryHolds, LogHolds, FileHolds, Bucket, After, NextLog, LogOf, Ordered, InTime;
    LogOfNone(h.log);
    before, after, smooth := [], [], true;
    assert events[..0] == [] && events[0..] == events;
    for i := 0 to |events|
      invariant h.Valid() && |before| == |after| == i && InTime(events[i..], h.clock)
      invariant smooth ==> h.whole && h.faithful && h.log == LogOf(old(h.log), events[..i])
      invariant smooth ==>
                  forall k :: 0 <= k < i && events[k].Restarts? && 0 < events[k].minutes * 60 <= RETENTION ==>
                    before[k] == after[k] == After(LogOf(old(h.log), events[..k]), events[k].now - events[k].minutes * 60)
    {
      LogOfNext(old(h.log), events, i);
      NextInTime(events, h.clock, i);
      match events[i] {
        case Collects(metrics, now) =>
          ghost var appended := Collect(h, metrics, now);
          smooth := smooth && appended;
          before, after := before + [[]], after + [[]];
        case Restarts(minutes, now) =>
          var first, second, read := RestartBetween(h, minutes, now);
          smooth := smooth && read;
          before, after := before + [first], after + [second];
          LogUnchanged(h.log, minutes, now);
      }
    }
    assert events[..|events|] == events;
  }

  lemma LogUnchanged(log: seq<Sample>, minutes: int, now: nat)
    ensures NextLog(log, Restarts(minutes, now)) == log
  {
  }

  /** Asks for some minutes, restarts, and asks again. */
  method RestartBetween(h: HistoryStore, minutes: int, now: nat)
    returns (before: seq<Sample>, after: seq<Sample>, read: bool)
    requires h.Valid() && h.clock <= now && h.enabled
    modifies h
    ensures h.Valid() && h.clock == now && h.log == old(h.log) && h.faithful == old(h.faithful)
    ensures old(h.faithful) && read ==> h.whole
    ensures old(h.whole) && old(h.faithful) && read && 0 < minutes * 60 <= RETENTION ==>
              before == after == After(h.log, now - minutes * 60)
  {
    before := h.Recent(minutes, now);
    read := h.Load(now);
    after := h.Recent(minutes, now);
  }

  method Collect(h: HistoryStore, metrics: int, now: nat) returns (ghost appended: bool)
    requires h.Valid() && h.clock <= now && h.enabled
    modifies h
    ensures h.Valid() && h.clock == now
    ensures old(h.whole) ==> h.whole && h.log == NextLog(old(h.log), Collects(metrics, now))
    ensures old(h.whole) && old(h.faithful) && appended ==> h.faithful
  {
    hide MemoryHolds, LogHolds, FileHolds, Bucket, Ordered;
    if h.whole {
      LaterMemory(h.samples, h.lastBucket, h.log, h.clock, now);
      NewMinuteOfLog(h.lastBucket, h.log, now);
    }
    appended := h.Record(metrics, now);
  }

  lemma Grows(s: seq<Sample>, log: seq<Sample>, cutoff: int, sample: Sample)
    requires CoversSince(s, log, cutoff)
    ensures CoversSince(s + [sample], log + [sample], cutoff)
  {
    var n := |log| - |s|;
    assert (log + [sample])[n..] == log[n..] + [sample];
  }

  lemma RisesOn(log: seq<Sample>, sample: Sample)
    requires Rising(log) && (log != [] ==> log[|log| - 1].time < sample.time)
    ensures Rising(log + [sample])
  {
  }

  lemma RisingEnd(s: seq<Sample>, log: seq<Sample>)
    requires Rising(log) && |s| <= |log| && log[|log| - |s|..] == s
    ensures Rising(s)
  {
    assert forall i :: 0 <= i < |s| ==> s[i] == log[|log| - |s| + i];
  }

  lemma Shortens(s: seq<Sample>, log: seq<Sample>, cutoff: int, index: nat)
    requires CoversSince(s, log, cutoff) && index <= |s| && forall i :: 0 <= i < index ==> s[i].time <= cutoff
    ensures CoversSince(s[index..], log, cutoff)
  {
    var n := |log| - |s|;
    assert s[index..] == log[n + index..];
    forall i | n <= i < n + index
      ensures log[i].time <= cutoff
    {
      assert s[i - n] == log[i];
    }
  }

  /** Reading written lines back gives a copy that covers the retention. */
  lemma Reloads(kept: seq<Sample>, log: seq<Sample>, now: nat)
    requires Rising(log) && CoversSince(kept, log, now - RETENTION)
    ensures CoversSince(Parse(Lines(kept), now - RETENTION, []), log, now - RETENTION)
  {
    hide Rising, After, Parse, Lines;
    RisingEnd(kept, log);
    assert [] + kept == kept;
    LinesAreParsed(kept, now - RETENTION, []);
    var cutoff := now - RETENTION - 1;
    SearchFilters(kept, cutoff);
    assert [] + AtLeast(kept, now - RETENTION) == AtLeast(kept, now - RETENTION);
    Shortens(kept, log, now - RETENTION, FirstAfter(kept, cutoff));
  }

  /** A faithful file gives such a copy, and the last minute with it. */
  lemma FileReloads(file: seq<Line>, torn: bool, log: seq<Sample>, now: nat)
    requires LogHolds(log, now) && FileHolds(file, torn, log, now - RETENTION)
    ensures var s := Parse(file, now - RETENTION, []);
            && CoversSince(s, log, now - RETENTION)
            && MemoryHolds(s, LastTime(s), log, now)
  {
    hide Parse, Lines;
    var kept :| file == Lines(kept) && CoversSince(kept, log, now - RETENTION);
    Reloads(kept, log, now);
    var s := Parse(file, now - RETENTION, []);
    assert s != [] ==> log[|log| - |s|..][|s| - 1] == log[|log| - 1];
  }

  /** A reloaded copy answers every query within the retention like the copy in memory, and like the whole log. */
  lemma ReloadAnswersAlike(file: seq<Line>, torn: bool, samples: seq<Sample>, log: seq<Sample>, loaded: nat, asked: nat,
                           minutes: nat)
    requires LogHolds(log, loaded) && loaded <= asked && minutes * 60 <= RETENTION
    requires FileHolds(file, torn, log, loaded - RETENTION) && CoversSince(samples, log, loaded - RETENTION)
    ensures var again := Parse(file, loaded - RETENTION, []);
            && After(again, asked - minutes * 60) == After(samples, asked - minutes * 60)
            && After(samples, asked - minutes * 60) == After(log, asked - minutes * 60)
  {
    hide Parse, After, FileHolds, LogHolds, CoversSince;
    FileReloads(file, torn, log, loaded);
    CoveredAnswers(Parse(file, loaded - RETENTION, []), log, loaded - RETENTION, asked - minutes * 60);
    CoveredAnswers(samples, log, loaded - RETENTION, asked - minutes * 60);
  }
}
