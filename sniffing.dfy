/** The sampling loop both GUI front-ends run before choosing a delimiter:
    walk the file line by line, record the tab and comma counts of every line
    the front-end accepts, and stop once more than `sample` lines have been
    recorded. */
module Sniffing {
  import opened Seqs
  import opened Text

  /** The extension test of the fallback rule: `.txt` and `.xlm` files are
      taken for tab-separated. */
  predicate HasTabExtension(path: string)
    ensures HasTabExtension(path) <==> |path| >= 4 && path[|path| - 4..] in [".txt", ".xlm"]
  {
    EndsWith(path, ".txt") || EndsWith(path, ".xlm")
  }

  /** The lines the loop records: the accepted lines of the file, in order,
      cut after the first `sample + 1` of them. */
  function Sample(lines: seq<string>, keep: string -> bool, sample: nat): (r: seq<string>)
    ensures |r| <= sample + 1
    ensures forall i :: 0 <= i < |r| ==> keep(r[i])
    ensures r <= Filter(lines, keep)
    ensures |r| == sample + 1 || r == Filter(lines, keep)
  {
    var kept := Filter(lines, keep);
    FilterMembers(lines, keep);
    assert forall i :: 0 <= i < |kept| ==> kept[i] in kept;
    if |kept| <= sample + 1 then kept else kept[..sample + 1]
  }

  /** The per-line count of character `c` (`line.count(c)` for each line). */
  function Counts(lines: seq<string>, c: char): (r: seq<nat>)
    ensures |r| == |lines|
    ensures forall i :: 0 <= i < |lines| ==> r[i] == Occurrences(lines[i], c)
  {
    seq(|lines|, i requires 0 <= i < |lines| => Occurrences(lines[i], c))
  }

  /** Counting one more line appends its count. */
  lemma CountsSnoc(lines: seq<string>, line: string, c: char)
    ensures Counts(lines + [line], c) == Counts(lines, c) + [Occurrences(line, c)]
  {
  }

  /** The sample is empty exactly when the file has no accepted line. */
  lemma SampleEmpty(lines: seq<string>, keep: string -> bool, sample: nat)
    ensures Sample(lines, keep, sample) == [] <==> forall i :: 0 <= i < |lines| ==> !keep(lines[i])
  {
    FilterEmpty(lines, keep);
  }

  /** Where the loop stops, the lines it has recorded are the sample: either
      it read the whole file, or it had just recorded `sample + 1` lines. */
  lemma SampleIsPrefixRead(lines: seq<string>, keep: string -> bool, sample: nat, i: nat)
    requires i <= |lines|
    requires |Filter(lines[..i], keep)| <= sample + 1
    requires i == |lines| || |Filter(lines[..i], keep)| == sample + 1
    ensures Sample(lines, keep, sample) == Filter(lines[..i], keep)
  {
    assert lines[..i] + lines[i..] == lines;
    FilterAppend(lines[..i], lines[i..], keep);
    if i == |lines| {
      assert lines[..i] == lines;
    }
  }

  /** The loop itself: the tab and comma counts of the sampled lines, in the
      order the lines appear. */
  method SampleCounts(lines: seq<string>, keep: string -> bool, sample: nat)
    returns (nTab: seq<nat>, nComma: seq<nat>)
    ensures nTab == Counts(Sample(lines, keep, sample), '\t')
    ensures nComma == Counts(Sample(lines, keep, sample), ',')
  {
    nTab, nComma := [], [];
    var i := 0;
    while i < |lines|
      invariant 0 <= i <= |lines|
      invariant |Filter(lines[..i], keep)| <= sample
      invariant nTab == Counts(Filter(lines[..i], keep), '\t')
      invariant nComma == Counts(Filter(lines[..i], keep), ',')
    {
      assert lines[..i + 1] == lines[..i] + [lines[i]];
      FilterAppend(lines[..i], [lines[i]], keep);
      if keep(lines[i]) {
        CountsSnoc(Filter(lines[..i], keep), lines[i], '\t');
        CountsSnoc(Filter(lines[..i], keep), lines[i], ',');
        nTab := nTab + [Occurrences(lines[i], '\t')];
        nComma := nComma + [Occurrences(lines[i], ',')];
      }
      i := i + 1;
      if |nTab| > sample {
        break;
      }
    }
    SampleIsPrefixRead(lines, keep, sample, i);
  }
}
