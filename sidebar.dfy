/** The sidebar summary of the listing: how many files there are and how many
    bytes they take together. */
module Sidebar {
  import opened Wrappers
  import opened Files
  import opened SizeLabel

  /** `sum(int(f.get("size", 0)) for f in files)`: every file's size is part of
      the total, and files without a size add nothing to it. */
  function TotalBytes(files: seq<DriveFile>): (total: nat)
    ensures forall i :: 0 <= i < |files| ==> SizeOf(files[i]) <= total
    ensures (forall i :: 0 <= i < |files| ==> files[i].size.None?) ==> total == 0
  {
    if files == [] then 0 else SizeOf(files[0]) + TotalBytes(files[1..])
  }

  /** The total of two listings put together is the sum of their totals. */
  lemma {:induction false} TotalBytesAppend(a: seq<DriveFile>, b: seq<DriveFile>)
    ensures TotalBytes(a + b) == TotalBytes(a) + TotalBytes(b)
    decreases |a|
  {
    if a == [] {
      assert a + b == b;
    } else {
      assert (a + b)[1..] == a[1..] + b;
      TotalBytesAppend(a[1..], b);
    }
  }

  /** Taking one file out of a listing takes its size off the total. */
  lemma TotalBytesRemove(b: seq<DriveFile>, i: nat)
    requires i < |b|
    ensures TotalBytes(b) == TotalBytes(b[..i] + b[i + 1..]) + SizeOf(b[i])
  {
    assert b == b[..i] + b[i..];
    assert b[i..][1..] == b[i + 1..];
    TotalBytesAppend(b[..i], b[i..]);
    TotalBytesAppend(b[..i], b[i + 1..]);
  }

  /** The total does not depend on the order of the listing. */
  lemma {:induction false} TotalBytesPermutation(a: seq<DriveFile>, b: seq<DriveFile>)
    requires multiset(a) == multiset(b)
    ensures TotalBytes(a) == TotalBytes(b)
    decreases |a|
  {
    if a == [] {
      assert |b| == |multiset(b)| == 0;
    } else {
      assert a[0] in multiset(b);
      var i :| 0 <= i < |b| && b[i] == a[0];
      MultisetRemove(a, b, i);
      TotalBytesPermutation(a[1..], b[..i] + b[i + 1..]);
      TotalBytesRemove(b, i);
    }
  }

  /** Taking the same element out of two permutations of each other leaves two
      permutations of each other. */
  lemma MultisetRemove(a: seq<DriveFile>, b: seq<DriveFile>, i: nat)
    requires multiset(a) == multiset(b) && 0 < |a| && i < |b| && b[i] == a[0]
    ensures multiset(a[1..]) == multiset(b[..i] + b[i + 1..])
  {
    var first, others := a[0], b[..i] + b[i + 1..];
    assert a == [first] + a[1..];
    assert b == b[..i] + [first] + b[i + 1..];
    assert multiset(b) == multiset(b[..i]) + multiset{first} + multiset(b[i + 1..]);
    assert multiset(others) == multiset(b[..i]) + multiset(b[i + 1..]);
    assert multiset(a) == multiset{first} + multiset(a[1..]);
    assert multiset(a[1..]) == multiset(a) - multiset{first};
    assert multiset(others) == multiset(b) - multiset{first};
  }

  datatype Summary = Summary(count: nat, totalText: string)

  /** The sidebar: the number of listed files and their total size, which reads
      back in KB below 1048576 bytes (also below 1024) and in MB from there on. */
  function Summarize(files: seq<DriveFile>): (s: Summary)
    ensures s.count == |files|
    ensures Parse(s.totalText) == Some(Scaled(TotalBytes(files)))
    ensures TotalBytes(files) < MiB ==> Parse(s.totalText).value.Kilo?
    ensures MiB <= TotalBytes(files) ==> Parse(s.totalText).value.Mega?
  {
    Summary(|files|, FormatTotal(TotalBytes(files)))
  }

  /** An empty listing shows no files and "0.0 KB". */
  lemma EmptySummary()
    ensures Summarize([]) == Summary(0, "0.0 KB")
  {
    EmptyTotal();
  }
}
