/**
 * The one-place channel between a scan and the page that shows it. The producer replaces an update nobody has read
 * yet, so it never waits for the page, which may have stopped reading for good.
 */
module UpdateChannel {
  import opened Base

  datatype Update<T> = Update(result: T, done: bool)

  class Channel<T(==)> {
    var slot: Option<Update<T>>
    var closed: bool
    ghost var published: seq<Update<T>>   // everything ever handed to Publish
    ghost var at: nat                     // the position of the update in the slot
    ghost var delivered: seq<nat>         // the positions of the updates that were read

    constructor ()
      ensures Valid() && Newest() && published == [] && delivered == [] && !closed
    {
      slot, closed, published, at, delivered := None, false, [], 0, [];
    }

    /** Updates are read at most once, in the order of publishing, and only the last can be the final one. */
    ghost predicate Valid()
      reads this
    {
      && Ascending(delivered)
      && (forall i :: 0 <= i < |delivered| ==> delivered[i] < |published|)
      && (slot.Some? ==> && at < |published| && slot.value == published[at]
                         && forall i :: 0 <= i < |delivered| ==> delivered[i] < at)
      && (forall i :: 0 <= i < |published| - 1 ==> !published[i].done)
    }

    /** The newest update is the one waiting to be read, or the one read last. */
    ghost predicate Newest()
      reads this
    {
      || published == []
      || (slot.Some? && at == |published| - 1)
      || (slot.None? && delivered != [] && delivered[|delivered| - 1] == |published| - 1)
    }

    ghost predicate Finished()
      reads this
    {
      published != [] && published[|published| - 1].done
    }

    /** The page takes the waiting update. */
    method Take() returns (update: Update<T>)
      requires Valid() && slot.Some?
      modifies this`slot, this`delivered
      ensures Valid() && slot.None? && delivered == old(delivered) + [at]
      ensures update == published[at] && (old(Newest()) ==> Newest())
    {
      update := slot.value;
      slot := None;
      delivered := delivered + [at];
    }

    /** The page reads or does not, between any two steps of the producer. */
    method Meanwhile()
      requires Valid()
      modifies this`slot, this`delivered
      ensures Valid() && (old(Newest()) ==> Newest()) && old(delivered) <= delivered
      ensures slot == old(slot) || slot.None?
    {
      var wanted: bool := *;
      if wanted && slot.Some? {
        var _ := Take();
      }
    }

    /** Publishes an update. The send at the end always finds the place free. */
    method Publish(update: Update<T>)
      requires Valid() && Newest() && !closed && !Finished()
      modifies this
      ensures Valid() && Newest() && !closed
      ensures published == old(published) + [update] && old(delivered) <= delivered
    {
      Meanwhile();
      if slot.None? {
        slot, at, published := Some(update), |published|, published + [update];
        return;
      }
      Meanwhile();
      if slot.Some? {
        slot := None;
      }
      Meanwhile();
      assert slot.None?;
      slot, at, published := Some(update), |published|, published + [update];
    }

    method Close()
      requires Valid() && Newest() && !closed
      modifies this`closed
      ensures Valid() && Newest() && closed
    {
      closed := true;
    }

    /** A scan: any number of partial results, then the final one, then the channel is closed. */
    method Produce(partial: seq<T>, final: T)
      requires Valid() && Newest() && !closed && published == []
      modifies this
      ensures Valid() && Newest() && closed && Finished()
      ensures |published| == |partial| + 1 && published[|partial|] == Update(final, true)
      ensures forall i :: 0 <= i < |partial| ==> published[i] == Update(partial[i], false)
    {
      for i := 0 to |partial|
        invariant Valid() && Newest() && !closed && |published| == i
        invariant forall k :: 0 <= k < i ==> published[k] == Update(partial[k], false)
      {
        Publish(Update(partial[i], false));
      }
      Publish(Update(final, true));
      Meanwhile();
      Close();
    }

    /** Whoever reads on until the end gets the final update, and gets it last. */
    method ReadToEnd() returns (last: Option<Update<T>>)
      requires Valid() && Newest() && closed && Finished()
      modifies this`slot, this`delivered
      ensures Valid() && slot.None?
      ensures delivered != [] && delivered[|delivered| - 1] == |published| - 1
      ensures last.Some? ==> last.value.done
      ensures last.None? ==> old(slot).None? && delivered == old(delivered)
    {
      last := None;
      if slot.Some? {
        var update := Take();
        last := Some(update);
      }
    }
  }

  function Read<T>(published: seq<Update<T>>, delivered: seq<nat>): seq<Update<T>>
    requires forall i :: 0 <= i < |delivered| ==> delivered[i] < |published|
  {
    seq(|delivered|, i requires 0 <= i < |delivered| => published[delivered[i]])
  }

  /** What was read is a subsequence of what was published, in the same order. */
  lemma {:induction false} ReadInOrder<T>(published: seq<Update<T>>, delivered: seq<nat>)
    requires Ascending(delivered) && forall i :: 0 <= i < |delivered| ==> delivered[i] < |published|
    ensures Subsequence(Read(published, delivered), published)
    decreases |published|
  {
    if published != [] {
      var n := |published| - 1;
      var shorter := published[..n];
      assert published == shorter + [published[n]];
      if delivered != [] && delivered[|delivered| - 1] == n {
        var fewer := delivered[..|delivered| - 1];
        ReadInOrder(shorter, fewer);
        SubsequencesAppend(Read(shorter, fewer), shorter, [published[n]], [published[n]]);
        assert Read(published, delivered) == Read(shorter, fewer) + [published[n]];
      } else {
        assert forall i :: 0 <= i < |delivered| ==> delivered[i] < n by {
          assert forall i :: 0 <= i < |delivered| - 1 ==> delivered[i] < delivered[|delivered| - 1];
        }
        ReadInOrder(shorter, delivered);
        SubsequencesAppend(Read(shorter, delivered), shorter, [], [published[n]]);
        assert Read(shorter, delivered) + [] == Read(shorter, delivered);
        assert Read(published, delivered) == Read(shorter, delivered);
      }
    }
  }
}
