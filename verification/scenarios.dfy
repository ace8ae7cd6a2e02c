/** The situations the library's test-suite describes, stated over the
    model with the default paths and a fresh memo: a Kubernetes pod with a
    cgroup limit, a host exposing `MemAvailable`, an older host exposing
    only `MemTotal`, and a host with none of the files. */
module Scenarios {
  import opened Common
  import opened Text
  import opened Filesystem
  import Meminfo
  import opened AvailableMemoryReader

  lemma ShowLimit()
    ensures ShowInt(1342177280) == "1342177280"
  {
    assert ShowNat(1) == "1";
    assert ShowNat(13) == "13";
    assert ShowNat(134) == "134";
    assert ShowNat(1342) == "1342";
    assert ShowNat(13421) == "13421";
    assert ShowNat(134217) == "134217";
    assert ShowNat(1342177) == "1342177";
    assert ShowNat(13421772) == "13421772";
    assert ShowNat(134217728) == "134217728";
  }

  lemma ShowUsage()
    ensures ShowInt(215252992) == "215252992"
  {
    assert ShowNat(2) == "2";
    assert ShowNat(21) == "21";
    assert ShowNat(215) == "215";
    assert ShowNat(2152) == "2152";
    assert ShowNat(21525) == "21525";
    assert ShowNat(215252) == "215252";
    assert ShowNat(2152529) == "2152529";
    assert ShowNat(21525299) == "21525299";
  }

  /** A pod whose cgroup allows 1342177280 bytes with 215252992 in use gets
      the difference, whatever its meminfo file says. */
  lemma KubernetesPodUsesCgroup(meminfo: string)
    ensures var fs := map[DefaultPaths.procMeminfo := meminfo,
                          DefaultPaths.cgroupMemoryMax := "1342177280\n",
                          DefaultPaths.cgroupMemoryCurrent := "215252992\n"];
            DetermineAvailableMemoryBytes(fs, map[], DefaultPaths).result == Ok(1342177280 - 215252992)
  {
    ShowLimit();
    ShowUsage();
    var fs := map[DefaultPaths.procMeminfo := meminfo,
                  DefaultPaths.cgroupMemoryMax := "1342177280\n",
                  DefaultPaths.cgroupMemoryCurrent := "215252992\n"];
    CgroupHeadroomWins(fs, map[], DefaultPaths, 1342177280, 215252992);
  }

  /** A meminfo line as the kernel writes it: `<key>:<padding><n> kB`. */
  function MeminfoLine(key: string, pad: string, n: int): string
  {
    key + ":" + pad + ShowInt(n) + " " + Meminfo.KiloBytes
  }

  /** A host without cgroup files whose meminfo file is one line. */
  function MeminfoOnlyHost(line: string): Files
  {
    map[DefaultPaths.procMeminfo := line + "\n"]
  }

  /** A rendered line holds no line break and nothing `trim` would strip. */
  lemma MeminfoLineShape(key: string, pad: string, n: int)
    requires |key| > 0 && IsTrimmed(key) && '\n' !in key && '\n' !in pad
    ensures IsTrimmed(MeminfoLine(key, pad, n))
    ensures '\n' !in MeminfoLine(key, pad, n)
  {
    var line := MeminfoLine(key, pad, n);
    Meminfo.NumericHasNoSeparators(ShowInt(n)) by {
      ShowIntRoundTrip(n);
    }
    assert line[0] == key[0];
    assert line[|line| - 1] == 'B';
  }

  /** The meminfo file of a host without cgroup files, with its newline trimmed away. */
  lemma MeminfoOnlyHostReads(line: string)
    requires IsTrimmed(line)
    ensures Read(MeminfoOnlyHost(line), DefaultPaths.procMeminfo) == Some(line)
    ensures CgroupAvailableMemoryBytes(MeminfoOnlyHost(line), DefaultPaths).value.None?
  {
    TrimTrailing(line, "\n");
  }

  /** A one-line meminfo text answers for the key its line names. */
  lemma OneLineFound(key: string, pad: string, n: int)
    requires |key| > 0 && IsTrimmed(key) && ':' !in key && '\n' !in key
    requires AllTrimmable(pad) && '\n' !in pad
    ensures Meminfo.Lookup(Some(MeminfoLine(key, pad, n)), key) == Some(n * 1024)
  {
    var line := MeminfoLine(key, pad, n);
    MeminfoLineShape(key, pad, n);
    assert Join([line], '\n') == line;
    Meminfo.RenderedFieldFound([line], 0, key, pad, n);
  }

  /** A one-line meminfo text has nothing for any other key. */
  lemma OneLineMissing(key: string, pad: string, n: int, other: string)
    requires |key| > 0 && IsTrimmed(key) && ':' !in key && '\n' !in key
    requires AllTrimmable(pad) && '\n' !in pad
    requires other != key
    ensures Meminfo.Lookup(Some(MeminfoLine(key, pad, n)), other) == None
  {
    var line := MeminfoLine(key, pad, n);
    MeminfoLineShape(key, pad, n);
    assert Join([line], '\n') == line;
    var fields := Meminfo.ParseLines([line]);
    assert !Meminfo.Carries(fields[0], other) by {
      Meminfo.RenderedLineParses(key, pad, n);
    }
    Meminfo.LookupMissingKey(fields, other);
    Meminfo.LookupJoinedLines([line], other);
  }

  /** A host without cgroup files answers from its one meminfo line:
      `MemAvailable` first, then `MemTotal`. */
  lemma MeminfoOnlyHostAnswer(line: string)
    requires IsTrimmed(line)
    ensures var result := DetermineAvailableMemoryBytes(MeminfoOnlyHost(line), map[], DefaultPaths).result;
            && (Meminfo.Lookup(Some(line), MemAvailable).Some? ==>
                  result == Ok(Meminfo.Lookup(Some(line), MemAvailable).value))
            && (Meminfo.Lookup(Some(line), MemAvailable).None? && Meminfo.Lookup(Some(line), MemTotal).Some? ==>
                  result == Ok(Meminfo.Lookup(Some(line), MemTotal).value))
  {
    MeminfoOnlyHostReads(line);
    DetermineOnConsistentCache(MeminfoOnlyHost(line), map[], DefaultPaths);
  }

  /** A host without cgroup files whose meminfo reads
      `MemAvailable:<padding><n> kB` gets `n` KiB. */
  lemma BareMetalUsesMemAvailable(pad: string, n: int)
    requires AllTrimmable(pad) && '\n' !in pad
    ensures DetermineAvailableMemoryBytes(MeminfoOnlyHost(MeminfoLine(MemAvailable, pad, n)), map[], DefaultPaths).result
         == Ok(n * 1024)
  {
    MeminfoLineShape(MemAvailable, pad, n);
    OneLineFound(MemAvailable, pad, n);
    MeminfoOnlyHostAnswer(MeminfoLine(MemAvailable, pad, n));
  }

  /** The two lines of such a text, and the line scan that answers `MemAvailable`. */
  lemma TwoLineScan(padT: string, t: int, padA: string, a: int)
    requires AllTrimmable(padT) && '\n' !in padT
    requires AllTrimmable(padA) && '\n' !in padA
    ensures Meminfo.Lookup(Some(Join([MeminfoLine(MemTotal, padT, t), MeminfoLine(MemAvailable, padA, a)], '\n')), MemAvailable)
         == Some(a * 1024)
  {
    var lines := [MeminfoLine(MemTotal, padT, t), MeminfoLine(MemAvailable, padA, a)];
    MeminfoLineShape(MemTotal, padT, t);
    MeminfoLineShape(MemAvailable, padA, a);
    forall k | 0 <= k < |lines| ensures '\n' !in lines[k] {
    }
    forall j | 0 <= j < 1 ensures !Meminfo.Carries(Meminfo.ParseLine(lines[j]), MemAvailable) {
      Meminfo.RenderedLineParses(MemTotal, padT, t);
    }
    Meminfo.RenderedFieldFound(lines, 1, MemAvailable, padA, a);
  }

  /** Meminfo text holding a `MemTotal` line and then a `MemAvailable` line
      answers `MemAvailable` with the second line's value. */
  lemma TwoLineText(padT: string, t: int, padA: string, a: int)
    requires AllTrimmable(padT) && '\n' !in padT
    requires AllTrimmable(padA) && '\n' !in padA
    ensures var text := MeminfoLine(MemTotal, padT, t) + "\n" + MeminfoLine(MemAvailable, padA, a);
            IsTrimmed(text) && Meminfo.Lookup(Some(text), MemAvailable) == Some(a * 1024)
  {
    var total := MeminfoLine(MemTotal, padT, t);
    var available := MeminfoLine(MemAvailable, padA, a);
    var text := total + "\n" + available;
    assert Join([total, available], '\n') == text by {
      JoinTwo(total, '\n', available);
    }
    TwoLineScan(padT, t, padA, a);
    assert IsTrimmed(text) by {
      MeminfoLineShape(MemTotal, padT, t);
      MeminfoLineShape(MemAvailable, padA, a);
      assert text[0] == total[0];
      assert text[|text| - 1] == available[|available| - 1];
    }
  }

  /** A host without cgroup files whose meminfo lists `MemTotal` and then
      `MemAvailable`, as the kernel writes it, gets the available figure and
      not the total. */
  lemma TwoLineHostUsesMemAvailable(padT: string, t: int, padA: string, a: int)
    requires AllTrimmable(padT) && '\n' !in padT
    requires AllTrimmable(padA) && '\n' !in padA
    ensures var text := MeminfoLine(MemTotal, padT, t) + "\n" + MeminfoLine(MemAvailable, padA, a);
            DetermineAvailableMemoryBytes(MeminfoOnlyHost(text), map[], DefaultPaths).result == Ok(a * 1024)
  {
    TwoLineText(padT, t, padA, a);
    MeminfoOnlyHostAnswer(MeminfoLine(MemTotal, padT, t) + "\n" + MeminfoLine(MemAvailable, padA, a));
  }

  /** An older host whose meminfo has `MemTotal` but no `MemAvailable` gets
      the total. */
  lemma OldKernelUsesMemTotal(pad: string, n: int)
    requires AllTrimmable(pad) && '\n' !in pad
    ensures DetermineAvailableMemoryBytes(MeminfoOnlyHost(MeminfoLine(MemTotal, pad, n)), map[], DefaultPaths).result
         == Ok(n * 1024)
  {
    MeminfoLineShape(MemTotal, pad, n);
    OneLineFound(MemTotal, pad, n);
    OneLineMissing(MemTotal, pad, n, MemAvailable);
    MeminfoOnlyHostAnswer(MeminfoLine(MemTotal, pad, n));
  }

  /** A host exposing none of the files fails with FailedToDetermine rather
      than guessing a figure. */
  lemma NoFilesFails()
    ensures DetermineAvailableMemoryBytes(map[], map[], DefaultPaths).result == Err(FailedToDetermine)
  {
    DetermineOnConsistentCache(map[], map[], DefaultPaths);
  }
}
