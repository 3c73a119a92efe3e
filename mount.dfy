/** One overlay mount (mount.go): the option string handed to the kernel and
    the mounted flag that Open and Close flip. The kernel's mount, unmount
    and the removal of the work directory are outcomes passed in. */
module Mounts {
  import opened Wrappers
  import opened Errors

  /** The overlay option string, or MountCannotProceed when there is no
      lower directory (an image of a single layer). */
  function MakeMountOptions(upper: string, lower: string, work: string): (r: Result<string, Error>)
    ensures r.Failure? <==> lower == ""
    ensures r.Failure? ==> Cause(r.error) == MountCannotProceed
  {
    if lower == "" then
      Failure(Wrap(MountCannotProceed, "No lower dir specified (only one layer?)"))
    else
      Success("upperdir=" + upper + ",lowerdir=" + lower + ",workdir=" + work)
  }

  /** The string cut at every occurrence of `sep`, as the kernel reads a
      comma-separated option list. */
  function Split(s: string, sep: char): (r: seq<string>)
    ensures |r| >= 1
  {
    if |s| == 0 then [""]
    else if s[0] == sep then [""] + Split(s[1..], sep)
    else
      var rest := Split(s[1..], sep);
      [[s[0]] + rest[0]] + rest[1..]
  }

  lemma {:induction false} SplitWithout(a: string, sep: char)
    requires sep !in a
    ensures Split(a, sep) == [a]
  {
    if |a| > 0 {
      SplitWithout(a[1..], sep);
      assert [a[0]] + a[1..] == a;
    }
  }

  lemma {:induction false} SplitAt(a: string, sep: char, b: string)
    requires sep !in a
    ensures Split(a + [sep] + b, sep) == [a] + Split(b, sep)
  {
    var s := a + [sep] + b;
    if |a| == 0 {
      assert s == [sep] + b;
      assert s[1..] == b;
    } else {
      assert s[0] == a[0];
      assert s[1..] == a[1..] + [sep] + b;
      SplitAt(a[1..], sep, b);
      assert [a[0]] + a[1..] == a;
    }
  }

  /** When no directory name holds a comma, the kernel reads back exactly
      the three settings the option string was built from. */
  lemma MountOptionsRoundTrip(upper: string, lower: string, work: string)
    requires lower != ""
    requires ',' !in upper && ',' !in lower && ',' !in work
    ensures MakeMountOptions(upper, lower, work).Success?
    ensures Split(MakeMountOptions(upper, lower, work).value, ',') ==
      ["upperdir=" + upper, "lowerdir=" + lower, "workdir=" + work]
  {
    var u, l, w := "upperdir=" + upper, "lowerdir=" + lower, "workdir=" + work;
    var opts := MakeMountOptions(upper, lower, work).value;
    assert opts == u + [','] + (l + [','] + w);
    assert ',' !in u && ',' !in l && ',' !in w;
    SplitAt(u, ',', l + [','] + w);
    SplitAt(l, ',', w);
    SplitWithout(w, ',');
  }

  class Mount {
    const target: string
    const upper: string
    const lower: string
    const work: string
    var mounted: bool

    constructor (target: string, lower: string, upper: string, work: string)
      ensures this.target == target && this.lower == lower
      ensures this.upper == upper && this.work == work
      ensures !mounted
    {
      this.target, this.lower, this.upper, this.work := target, lower, upper, work;
      mounted := false;
    }

    /** Open: build the options, then ask the kernel to mount (`mountOk` is
        its answer). Only a successful mount sets the flag; a missing lower
        directory fails before the kernel is asked. */
    method Open(mountOk: bool) returns (err: Option<Error>)
      modifies this
      ensures lower == "" ==> err.Some? && Cause(err.value) == MountCannotProceed
      ensures lower != "" ==> (err == None <==> mountOk)
      ensures mounted == if err == None then true else old(mounted)
    {
      var opts := MakeMountOptions(upper, lower, work);
      if opts.Failure? {
        return Some(opts.error);
      }
      if !mountOk {
        return Some(IO(OtherFailure("mount")));
      }
      mounted := true;
      return None;
    }

    /** Close: unmount, then remove the work directory (`unmountErr` and
        `removeErr` are what the kernel and the removal answer). The flag
        drops only when both succeed; the first failure is returned as it
        is, and a failed unmount skips the removal. */
    method Close(unmountErr: Option<Error>, removeErr: Option<Error>) returns (err: Option<Error>)
      modifies this
      ensures err == None <==> unmountErr == None && removeErr == None
      ensures unmountErr.Some? ==> err == unmountErr
      ensures unmountErr.None? ==> err == removeErr
      ensures mounted == if err == None then false else old(mounted)
    {
      if unmountErr.Some? {
        return unmountErr;
      }
      if removeErr.Some? {
        return removeErr;
      }
      mounted := false;
      return None;
    }

    /** Mounted reports the flag and changes nothing. */
    method Mounted() returns (m: bool)
      ensures m == mounted
    {
      return mounted;
    }
  }
}
