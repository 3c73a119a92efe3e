/** An image (image.go): its layers, and the stack of mounts made for them,
    pushed in layer order by Mount and popped from the top by Unmount.
    Mounting one layer is not part of this model: what it gives for each
    layer is passed in. */
module Images {
  import opened Wrappers
  import opened Errors
  import opened Layers
  import opened Mounts

  /** How many of the per-layer outcomes succeed before the first failure. */
  function FirstFailure(outcomes: seq<Result<Mount, Error>>): (k: nat)
    ensures k <= |outcomes|
    ensures forall j :: 0 <= j < k ==> outcomes[j].Success?
    ensures k < |outcomes| ==> outcomes[k].Failure?
  {
    if outcomes == [] || outcomes[0].Failure? then 0
    else 1 + FirstFailure(outcomes[1..])
  }

  /** What closing one mount meets: the answers of the unmount and of the
      removal of its work directory. */
  datatype CloseOutcome = CloseOutcome(unmountErr: Option<Error>, removeErr: Option<Error>) {
    predicate Ok() { unmountErr.None? && removeErr.None? }

    /** The error Close returns: the unmount's, else the removal's. */
    function Err(): Option<Error> { if unmountErr.Some? then unmountErr else removeErr }
  }

  /** How many mounts remain after Unmount, given what closing each mount
      would give: closing runs from the top and stops at the first failure,
      which stays in the list with everything below it. */
  function Remaining(closes: seq<CloseOutcome>): (n: nat)
    ensures n <= |closes|
    ensures forall j :: n <= j < |closes| ==> closes[j].Ok()
    ensures n > 0 ==> !closes[n - 1].Ok()
  {
    RemainingBelow(closes, |closes|)
  }

  /** How many mounts remain when closing starts at mount `x - 1`. */
  function RemainingBelow(closes: seq<CloseOutcome>, x: nat): (n: nat)
    requires x <= |closes|
    ensures n <= x
    ensures forall j :: n <= j < x ==> closes[j].Ok()
    ensures n > 0 ==> !closes[n - 1].Ok()
    decreases x
  {
    if x == 0 then 0
    else if closes[x - 1].Ok() then RemainingBelow(closes, x - 1)
    else x
  }

  /** Every close succeeding empties the stack. */
  lemma RemainingAllOk(closes: seq<CloseOutcome>)
    requires forall j :: 0 <= j < |closes| ==> closes[j].Ok()
    ensures Remaining(closes) == 0
  {
  }

  /** Resuming: unmounting the stack `lower + upper` first works through
      `upper`; only when all of it closes does it go on into `lower`, exactly
      as a second Unmount over the prefix left behind would. */
  lemma {:induction false} RemainingSplit(lower: seq<CloseOutcome>, upper: seq<CloseOutcome>)
    ensures Remaining(lower + upper) ==
      if Remaining(upper) == 0 then Remaining(lower) else |lower| + Remaining(upper)
    decreases |upper|
  {
    if upper != [] {
      var s := lower + upper;
      var u' := upper[..|upper| - 1];
      assert s[|s| - 1] == upper[|upper| - 1];
      assert s[..|s| - 1] == lower + u';
      RemainingSplit(lower, u');
    } else {
      assert lower + upper == lower;
    }
  }

  /** A retry with the kernel giving the same answers stops where the first
      attempt stopped: what is left is a fixed point. */
  lemma RemainingStable(closes: seq<CloseOutcome>)
    ensures Remaining(closes[..Remaining(closes)]) == Remaining(closes)
  {
    var n := Remaining(closes);
    if n > 0 {
      var p := closes[..n];
      assert p[n - 1] == closes[n - 1];
    }
  }

  class Image {
    const layers: seq<Layer>
    var mounts: seq<Mount>

    constructor (layers: seq<Layer>)
      ensures this.layers == layers && mounts == []
    {
      this.layers := layers;
      mounts := [];
    }

    /** Mount: mount the layers in order, recording each mount. At the first
        failure that error is returned and the mounts already made stay
        recorded; nothing is unmounted. `outcomes[j]` is what mounting
        layer j gives. */
    method Mount(outcomes: seq<Result<Mount, Error>>) returns (err: Option<Error>)
      requires |outcomes| == |layers|
      modifies this`mounts
      ensures var k := FirstFailure(outcomes);
        && |mounts| == |old(mounts)| + k
        && mounts[..|old(mounts)|] == old(mounts)
        && (forall j :: 0 <= j < k ==> mounts[|old(mounts)| + j] == outcomes[j].value)
        && err == if k < |outcomes| then Some(outcomes[k].error) else None
    {
      var i := 0;
      while i < |layers|
        invariant 0 <= i <= |layers|
        invariant forall j :: 0 <= j < i ==> outcomes[j].Success?
        invariant |mounts| == |old(mounts)| + i
        invariant mounts[..|old(mounts)|] == old(mounts)
        invariant forall j :: 0 <= j < i ==> mounts[|old(mounts)| + j] == outcomes[j].value
      {
        FirstFailureFrom(outcomes, i);
        var r := outcomes[i];
        if r.Failure? {
          return Some(r.error);
        }
        mounts := mounts + [r.value];
        i := i + 1;
      }
      FirstFailureFrom(outcomes, i);
      return None;
    }

    /** Unmount: close the recorded mounts from the last to the first,
        dropping each from the list once it is closed; at the first failure
        return it, leaving the mounts not yet closed (and their flags as they
        were, unless the same mount was also closed higher up). `closes[x]`
        is what closing mount x meets. */
    method Unmount(closes: seq<CloseOutcome>) returns (err: Option<Error>)
      requires |closes| == |mounts|
      modifies this`mounts, mounts
      ensures mounts == old(mounts)[..Remaining(closes)]
      ensures err == None <==> Remaining(closes) == 0
      ensures Remaining(closes) > 0 ==> err == closes[Remaining(closes) - 1].Err()
      ensures forall j :: Remaining(closes) <= j < |old(mounts)| ==> !old(mounts)[j].mounted
      ensures forall j :: 0 <= j < Remaining(closes) && old(mounts)[j] !in old(mounts)[Remaining(closes)..] ==>
        old(mounts)[j].mounted == old(mounts[j].mounted)
    {
      var x := |mounts|;
      while x > 0
        invariant 0 <= x <= |old(mounts)|
        invariant mounts == old(mounts)[..x]
        invariant Remaining(closes) == RemainingBelow(closes, x)
        invariant forall j :: x <= j < |old(mounts)| ==> !old(mounts)[j].mounted
        invariant forall j :: 0 <= j < x && old(mounts)[j] !in old(mounts)[x..] ==>
          old(mounts)[j].mounted == old(mounts[j].mounted)
      {
        var m := mounts[x - 1];
        assert old(mounts)[x - 1..] == [m] + old(mounts)[x..];
        err := m.Close(closes[x - 1].unmountErr, closes[x - 1].removeErr);
        if err.Some? {
          return;
        }
        assert !old(mounts)[x - 1].mounted;
        mounts := mounts[..x - 1];
        x := x - 1;
      }
      return None;
    }
  }

  lemma {:induction false} FirstFailureFrom(outcomes: seq<Result<Mount, Error>>, i: nat)
    requires i <= |outcomes|
    requires forall j :: 0 <= j < i ==> outcomes[j].Success?
    ensures i < |outcomes| && outcomes[i].Failure? ==> FirstFailure(outcomes) == i
    ensures i == |outcomes| ==> FirstFailure(outcomes) == i
    decreases i
  {
    if i > 0 {
      FirstFailureFrom(outcomes[1..], i - 1);
    }
  }
}
