/** The available-memory determination engine: the cgroup v2 reads, the
    meminfo lookups through the caching reader, and the fallback order that
    picks the first usable figure. */
module AvailableMemoryReader {
  import opened Common
  import opened Text
  import opened Filesystem
  import Meminfo

  /** The three pseudo-files the engine consults. */
  datatype Paths = Paths(procMeminfo: string, cgroupMemoryCurrent: string, cgroupMemoryMax: string)

  /** The paths used when none are given. */
  const DefaultPaths: Paths := Paths("/proc/meminfo", "/sys/fs/cgroup/memory.current", "/sys/fs/cgroup/memory.max")

  /** No two of the three paths name the same file. */
  predicate DistinctPaths(paths: Paths)
  {
    && paths.procMeminfo != paths.cgroupMemoryCurrent
    && paths.procMeminfo != paths.cgroupMemoryMax
    && paths.cgroupMemoryCurrent != paths.cgroupMemoryMax
  }

  const MemAvailable: string := "MemAvailable"
  const MemTotal: string := "MemTotal"

  /** What `memory.max` says: no file, the literal `max` (no limit
      configured, thrown as CgroupMemoryLimitIsMaxException in the source),
      or a byte count. */
  datatype CgroupLimit = Absent | Max | Bytes(bytes: int)

  /** `getMaxCgroupMemoryBytes`: reads `memory.max` through the plain reader. */
  function MaxCgroupMemoryBytes(fs: Files, path: string): (limit: CgroupLimit)
    ensures limit.Absent? <==> path !in fs
    ensures limit.Max? <==> Read(fs, path) == Some("max")
    ensures limit.Bytes? ==> Read(fs, path).Some? && limit.bytes == IntCast(Read(fs, path).value)
  {
    match Read(fs, path)
    case None => Absent
    case Some(content) => if content == "max" then Max else Bytes(IntCast(content))
  }

  /** `getCurrentCgroupMemoryUsageBytes`: reads `memory.current` through the plain reader. */
  function CurrentCgroupMemoryUsageBytes(fs: Files, path: string): (usage: Option<int>)
    ensures usage.None? <==> path !in fs
    ensures usage.Some? ==> usage.value == IntCast(Read(fs, path).value)
  {
    match Read(fs, path)
    case None => None
    case Some(content) => Some(IntCast(content))
  }

  /** A byte count written to a pseudo-file, as the kernel writes it, is
      read back as that count by both cgroup readers, whatever whitespace
      follows it. */
  lemma CgroupFileRoundTrip(fs: Files, path: string, n: int, after: string)
    requires AllTrimmable(after)
    requires path in fs && fs[path] == ShowInt(n) + after
    ensures MaxCgroupMemoryBytes(fs, path) == Bytes(n)
    ensures CurrentCgroupMemoryUsageBytes(fs, path) == Some(n)
  {
    var t := ShowInt(n);
    ShowIntRoundTrip(n);
    RenderedIntIsTrimmed(n);
    TrimTrailing(t, after);
    assert Read(fs, path) == Some(t);
    assert t[0] != 'm';
  }

  /** The files that reached the filesystem during an operation, in order,
      together with the value the operation produced. */
  datatype Probe = Probe(value: Option<int>, fetches: seq<string>)

  /** `getCgroupAvailableMemoryBytes`: the unused part of the cgroup's limit. */
  function CgroupAvailableMemoryBytes(fs: Files, paths: Paths): (p: Probe)
    // a cgroup-derived figure is always positive
    ensures p.value.Some? ==> p.value.value > 0
    // an unset (`max`) limit makes the path unusable, and usage is then not read
    ensures MaxCgroupMemoryBytes(fs, paths.cgroupMemoryMax).Max? ==>
              p == Probe(None, [paths.cgroupMemoryMax])
    // otherwise the limit is read first and the usage second
    ensures !MaxCgroupMemoryBytes(fs, paths.cgroupMemoryMax).Max? ==>
              p.fetches == [paths.cgroupMemoryMax, paths.cgroupMemoryCurrent]
    // a missing file makes the path unusable
    ensures paths.cgroupMemoryMax !in fs || paths.cgroupMemoryCurrent !in fs ==> p.value.None?
    // with both numbers known, the figure is their difference when positive, and nothing otherwise
    ensures var limit := MaxCgroupMemoryBytes(fs, paths.cgroupMemoryMax);
            var usage := CurrentCgroupMemoryUsageBytes(fs, paths.cgroupMemoryCurrent);
            p.value.Some? ==> limit.Bytes? && usage.Some? && p.value.value == limit.bytes - usage.value
    ensures var limit := MaxCgroupMemoryBytes(fs, paths.cgroupMemoryMax);
            var usage := CurrentCgroupMemoryUsageBytes(fs, paths.cgroupMemoryCurrent);
            limit.Bytes? && usage.Some? && limit.bytes - usage.value > 0 ==> p.value.Some?
  {
    var limit := MaxCgroupMemoryBytes(fs, paths.cgroupMemoryMax);
    if limit.Max? then Probe(None, [paths.cgroupMemoryMax])
    else
      var usage := CurrentCgroupMemoryUsageBytes(fs, paths.cgroupMemoryCurrent);
      var fetches := [paths.cgroupMemoryMax, paths.cgroupMemoryCurrent];
      if limit.Absent? || usage.None? then Probe(None, fetches)
      else if limit.bytes - usage.value <= 0 then Probe(None, fetches)
      else Probe(Some(limit.bytes - usage.value), fetches)
  }

  /** A lookup through the caching reader: the value found, the memo
      afterwards, and the files that reached the filesystem. */
  datatype CachedProbe = CachedProbe(value: Option<int>, cache: Cache, fetches: seq<string>)

  /** `getProcMeminfoValueInBytes`: looks a field up in the meminfo file,
      read through the caching reader. */
  function ProcMeminfoValueInBytes(fs: Files, cache: Cache, path: string, key: string): (r: CachedProbe)
    // at most one read of the meminfo file, and only of it
    ensures r.fetches == [] || r.fetches == [path]
    // the file is read exactly when the memo has no usable copy of it
    ensures r.fetches == [path] <==> !Holds(cache, path)
    // an existing file is memoized by the lookup, so the next one does not read it
    ensures path in fs ==> Holds(r.cache, path)
    // on a memo in step with the files, the answer is that of the current file
    ensures Consistent(cache, fs) ==>
              r.value == Meminfo.Lookup(Read(fs, path), key) && Consistent(r.cache, fs)
    // only the meminfo entry of the memo can change
    ensures r.cache.Keys == cache.Keys + {path}
    ensures forall q | q in cache && q != path :: r.cache[q] == cache[q]
  {
    var read := GetFileContent(fs, cache, path);
    CachedProbe(Meminfo.Lookup(read.content, key), read.cache, if read.fetched then [path] else [])
  }

  /** The outcome of one determination: the byte count or the exception,
      the memo afterwards, and the files that reached the filesystem. */
  datatype Run = Run(result: Result<int>, cache: Cache, fetches: seq<string>)

  /** The meminfo half of `determineAvailableMemoryBytes`: `MemAvailable`,
      then `MemTotal`, else FailedToDetermine; the memo is emptied after a
      meminfo figure is returned and kept as it is after a failure. */
  function MeminfoFallback(fs: Files, cache: Cache, path: string): (run: Run)
    // only the meminfo file is ever read
    ensures forall k | 0 <= k < |run.fetches| :: run.fetches[k] == path
    ensures run.result.Err? ==> run.result.error == FailedToDetermine
    ensures run.result.Ok? ==> run.cache == map[]
    ensures run.result.Err? ==>
              run.cache.Keys == cache.Keys + {path} &&
              forall q | q in cache && q != path :: run.cache[q] == cache[q]
  {
    var available := ProcMeminfoValueInBytes(fs, cache, path, MemAvailable);
    if available.value.Some? then
      Run(Ok(available.value.value), ClearCache(available.cache), available.fetches)
    else
      var total := ProcMeminfoValueInBytes(fs, available.cache, path, MemTotal);
      var fetches := available.fetches + total.fetches;
      if total.value.Some? then Run(Ok(total.value.value), ClearCache(total.cache), fetches)
      else Run(Err(FailedToDetermine), total.cache, fetches)
  }

  /** `determineAvailableMemoryBytes`: cgroup first, then `MemAvailable`,
      then `MemTotal`, else FailedToDetermine. */
  function DetermineAvailableMemoryBytes(fs: Files, cache: Cache, paths: Paths): (run: Run)
    // the only exception is FailedToDetermine
    ensures run.result.Err? ==> run.result.error == FailedToDetermine
    // a usable cgroup figure wins outright; meminfo is not consulted and the memo is untouched
    ensures CgroupAvailableMemoryBytes(fs, paths).value.Some? ==>
              run == Run(Ok(CgroupAvailableMemoryBytes(fs, paths).value.value), cache,
                         CgroupAvailableMemoryBytes(fs, paths).fetches)
    // otherwise the cgroup files are followed by the meminfo fallback
    ensures CgroupAvailableMemoryBytes(fs, paths).value.None? ==>
              var meminfo := MeminfoFallback(fs, cache, paths.procMeminfo);
              run == Run(meminfo.result, meminfo.cache, CgroupAvailableMemoryBytes(fs, paths).fetches + meminfo.fetches)
    // the memo is emptied exactly when a meminfo figure is returned
    ensures CgroupAvailableMemoryBytes(fs, paths).value.None? && run.result.Ok? ==> run.cache == map[]
    ensures run.result.Err? ==>
              run.cache.Keys == cache.Keys + {paths.procMeminfo} &&
              forall q | q in cache && q != paths.procMeminfo :: run.cache[q] == cache[q]
  {
    var cgroup := CgroupAvailableMemoryBytes(fs, paths);
    if cgroup.value.Some? then Run(Ok(cgroup.value.value), cache, cgroup.fetches)
    else
      var meminfo := MeminfoFallback(fs, cache, paths.procMeminfo);
      Run(meminfo.result, meminfo.cache, cgroup.fetches + meminfo.fetches)
  }

  /** On a memo in step with the files, the meminfo fallback answers from
      the current meminfo file and leaves the memo in step. */
  lemma FallbackOnConsistentCache(fs: Files, cache: Cache, path: string)
    requires Consistent(cache, fs)
    ensures var run := MeminfoFallback(fs, cache, path);
            var meminfo := Read(fs, path);
            && Consistent(run.cache, fs)
            && run.result ==
                 match Meminfo.Lookup(meminfo, MemAvailable)
                 case Some(available) => Ok(available)
                 case None =>
                   match Meminfo.Lookup(meminfo, MemTotal)
                   case Some(total) => Ok(total)
                   case None => Err(FailedToDetermine)
  {
    var available := ProcMeminfoValueInBytes(fs, cache, path, MemAvailable);
    var total := ProcMeminfoValueInBytes(fs, available.cache, path, MemTotal);
  }

  /** On a memo in step with the files, the answer is decided by the files
      alone: the cgroup figure when usable, else `MemAvailable`, else
      `MemTotal` (consulted only when `MemAvailable` gives nothing), else
      FailedToDetermine; and the memo stays in step with the files. */
  lemma DetermineOnConsistentCache(fs: Files, cache: Cache, paths: Paths)
    requires Consistent(cache, fs)
    ensures var run := DetermineAvailableMemoryBytes(fs, cache, paths);
            var cgroup := CgroupAvailableMemoryBytes(fs, paths).value;
            var meminfo := Read(fs, paths.procMeminfo);
            && Consistent(run.cache, fs)
            && run.result ==
                 match cgroup
                 case Some(headroom) => Ok(headroom)
                 case None =>
                   match Meminfo.Lookup(meminfo, MemAvailable)
                   case Some(available) => Ok(available)
                   case None =>
                     match Meminfo.Lookup(meminfo, MemTotal)
                     case Some(total) => Ok(total)
                     case None => Err(FailedToDetermine)
  {
    FallbackOnConsistentCache(fs, cache, paths.procMeminfo);
  }

  /** The empty memo (a fresh CachedFileReader) is in step with any files. */
  lemma EmptyCacheConsistent(fs: Files)
    ensures Consistent(map[], fs)
  {
  }

  /** Two determinations in a row over unchanged files, starting from a memo
      in step with them, give the same answer. */
  lemma DetermineIdempotent(fs: Files, cache: Cache, paths: Paths)
    requires Consistent(cache, fs)
    ensures var first := DetermineAvailableMemoryBytes(fs, cache, paths);
            DetermineAvailableMemoryBytes(fs, first.cache, paths).result == first.result
  {
    DetermineOnConsistentCache(fs, cache, paths);
    DetermineOnConsistentCache(fs, DetermineAvailableMemoryBytes(fs, cache, paths).cache, paths);
  }

  /** With the meminfo file present, the `MemTotal` lookup reuses the copy
      the `MemAvailable` lookup stored, so the fallback reads no more than
      that first lookup did. */
  lemma FallbackFetchesAtMostOnce(fs: Files, cache: Cache, path: string)
    requires path in fs
    ensures MeminfoFallback(fs, cache, path).fetches == [] || MeminfoFallback(fs, cache, path).fetches == [path]
  {
    var available := ProcMeminfoValueInBytes(fs, cache, path, MemAvailable);
    if available.value.None? {
      var total := ProcMeminfoValueInBytes(fs, available.cache, path, MemTotal);
      assert Holds(available.cache, path);
      assert total.fetches == [];
      assert available.fetches + total.fetches == available.fetches;
    }
  }

  /** With the meminfo file present, the fallback reads it at most once. */
  lemma FallbackReadsOnce(fs: Files, cache: Cache, path: string)
    requires path in fs
    ensures Occurrences(MeminfoFallback(fs, cache, path).fetches, path) <= 1
  {
    FallbackFetchesAtMostOnce(fs, cache, path);
    var fetches := MeminfoFallback(fs, cache, path).fetches;
    if fetches == [path] {
      assert fetches[1..] == [];
    }
  }

  /** The cgroup probe never reads the meminfo file. */
  lemma CgroupSkipsMeminfo(fs: Files, paths: Paths)
    requires DistinctPaths(paths)
    ensures Occurrences(CgroupAvailableMemoryBytes(fs, paths).fetches, paths.procMeminfo) == 0
  {
    var max, current := paths.cgroupMemoryMax, paths.cgroupMemoryCurrent;
    var fetches := CgroupAvailableMemoryBytes(fs, paths).fetches;
    assert fetches == [max] || fetches == [max, current];
    OccurrencesAbsent([max], paths.procMeminfo);
    OccurrencesAbsent([max, current], paths.procMeminfo);
  }

  /** After the cgroup reads, the fallback reads an existing meminfo file at most once. */
  lemma FallbackAfterCgroupReadsOnce(fs: Files, cache: Cache, paths: Paths)
    requires DistinctPaths(paths)
    requires paths.procMeminfo in fs
    requires CgroupAvailableMemoryBytes(fs, paths).value.None?
    ensures Occurrences(DetermineAvailableMemoryBytes(fs, cache, paths).fetches, paths.procMeminfo) <= 1
  {
    var cgroup := CgroupAvailableMemoryBytes(fs, paths).fetches;
    var meminfo := MeminfoFallback(fs, cache, paths.procMeminfo).fetches;
    CgroupSkipsMeminfo(fs, paths);
    FallbackReadsOnce(fs, cache, paths.procMeminfo);
    OccurrencesAppend(cgroup, meminfo, paths.procMeminfo);
  }

  /** When the meminfo file exists, one determination reads it at most once. */
  lemma MeminfoReadAtMostOnce(fs: Files, cache: Cache, paths: Paths)
    requires DistinctPaths(paths)
    requires paths.procMeminfo in fs
    ensures Occurrences(DetermineAvailableMemoryBytes(fs, cache, paths).fetches, paths.procMeminfo) <= 1
  {
    if CgroupAvailableMemoryBytes(fs, paths).value.Some? {
      CgroupSkipsMeminfo(fs, paths);
    } else {
      FallbackAfterCgroupReadsOnce(fs, cache, paths);
    }
  }

  /** A missing meminfo file is never memoized, so when the cgroup path is
      unusable both field lookups go to the filesystem and find nothing. */
  lemma MissingMeminfoReadTwice(fs: Files, cache: Cache, paths: Paths)
    requires DistinctPaths(paths)
    requires paths.procMeminfo !in fs && !Holds(cache, paths.procMeminfo)
    requires CgroupAvailableMemoryBytes(fs, paths).value.None?
    ensures var run := DetermineAvailableMemoryBytes(fs, cache, paths);
            run.result == Err(FailedToDetermine) &&
            Occurrences(run.fetches, paths.procMeminfo) == 2
  {
    var path := paths.procMeminfo;
    var cgroup := CgroupAvailableMemoryBytes(fs, paths);
    assert Occurrences(cgroup.fetches, path) == 0 by {
      OccurrencesAbsent(cgroup.fetches, path);
    }
    var available := ProcMeminfoValueInBytes(fs, cache, path, MemAvailable);
    var total := ProcMeminfoValueInBytes(fs, available.cache, path, MemTotal);
    assert available.fetches == [path];
    assert total.fetches == [path];
    var meminfo := MeminfoFallback(fs, cache, path);
    assert meminfo.fetches == available.fetches + total.fetches;
    OccurrencesAppend(available.fetches, total.fetches, path);
    OccurrencesAppend(cgroup.fetches, meminfo.fetches, path);
  }

  /** The memo is not emptied on failure: after a determination that failed
      with a readable meminfo file, a second one fails too, whatever the
      meminfo file now holds, unless the cgroup path has become usable. */
  lemma FailureKeepsStaleMeminfo(fs: Files, cache: Cache, paths: Paths, later: Files)
    requires paths.procMeminfo in fs
    requires DetermineAvailableMemoryBytes(fs, cache, paths).result.Err?
    requires CgroupAvailableMemoryBytes(later, paths).value.None?
    ensures var first := DetermineAvailableMemoryBytes(fs, cache, paths);
            DetermineAvailableMemoryBytes(later, first.cache, paths).result == Err(FailedToDetermine)
  {
    var first := DetermineAvailableMemoryBytes(fs, cache, paths);
    var available := ProcMeminfoValueInBytes(fs, cache, paths.procMeminfo, MemAvailable);
    var total := ProcMeminfoValueInBytes(fs, available.cache, paths.procMeminfo, MemTotal);
    assert Holds(total.cache, paths.procMeminfo);
    assert first.cache == total.cache;
  }

  /** A meminfo lookup depends on the files only through the file it reads. */
  lemma MeminfoLookupReadsOnlyItsFile(fs: Files, fs': Files, cache: Cache, path: string, key: string)
    requires Read(fs, path) == Read(fs', path)
    ensures ProcMeminfoValueInBytes(fs, cache, path, key) == ProcMeminfoValueInBytes(fs', cache, path, key)
  {
    assert GetFileContent(fs, cache, path) == GetFileContent(fs', cache, path);
  }

  /** The fallback depends on the files only through the meminfo file. */
  lemma FallbackReadsOnlyMeminfo(fs: Files, fs': Files, cache: Cache, path: string)
    requires Read(fs, path) == Read(fs', path)
    ensures MeminfoFallback(fs, cache, path) == MeminfoFallback(fs', cache, path)
  {
    MeminfoLookupReadsOnlyItsFile(fs, fs', cache, path, MemAvailable);
    var available := ProcMeminfoValueInBytes(fs, cache, path, MemAvailable);
    MeminfoLookupReadsOnlyItsFile(fs, fs', available.cache, path, MemTotal);
  }

  /** Once the cgroup path is unusable, the answer depends on the files
      only through the meminfo file. */
  lemma MeminfoLookupsOnlyReadMeminfo(fs: Files, fs': Files, cache: Cache, paths: Paths)
    requires Read(fs, paths.procMeminfo) == Read(fs', paths.procMeminfo)
    requires CgroupAvailableMemoryBytes(fs, paths).value.None?
    requires CgroupAvailableMemoryBytes(fs', paths).value.None?
    ensures DetermineAvailableMemoryBytes(fs, cache, paths).result ==
            DetermineAvailableMemoryBytes(fs', cache, paths).result
  {
    FallbackReadsOnlyMeminfo(fs, fs', cache, paths.procMeminfo);
  }

  /** Removing the cgroup files leaves the meminfo file as it was and makes
      the cgroup path unusable. */
  lemma WithoutCgroupFiles(fs: Files, paths: Paths)
    requires DistinctPaths(paths)
    ensures var bare := fs - {paths.cgroupMemoryMax, paths.cgroupMemoryCurrent};
            Read(bare, paths.procMeminfo) == Read(fs, paths.procMeminfo) &&
            CgroupAvailableMemoryBytes(bare, paths).value.None?
  {
    var bare := fs - {paths.cgroupMemoryMax, paths.cgroupMemoryCurrent};
    assert paths.procMeminfo in bare <==> paths.procMeminfo in fs;
    assert paths.procMeminfo in fs ==> bare[paths.procMeminfo] == fs[paths.procMeminfo];
    assert MaxCgroupMemoryBytes(bare, paths.cgroupMemoryMax).Absent?;
  }

  /** An unset (`max`) cgroup limit counts as no cgroup information at all:
      the answer is the one the engine gives with both cgroup files gone,
      and the usage file is not read. */
  lemma UnsetLimitIgnored(fs: Files, cache: Cache, paths: Paths)
    requires DistinctPaths(paths)
    requires Read(fs, paths.cgroupMemoryMax) == Some("max")
    ensures var run := DetermineAvailableMemoryBytes(fs, cache, paths);
            var bare := fs - {paths.cgroupMemoryMax, paths.cgroupMemoryCurrent};
            run.result == DetermineAvailableMemoryBytes(bare, cache, paths).result &&
            paths.cgroupMemoryCurrent !in run.fetches
  {
    var bare := fs - {paths.cgroupMemoryMax, paths.cgroupMemoryCurrent};
    UnsetLimitSkipsUsage(fs, cache, paths);
    WithoutCgroupFiles(fs, paths);
    MeminfoLookupsOnlyReadMeminfo(fs, bare, cache, paths);
  }

  /** With an unset (`max`) limit, the engine never reads the usage file. */
  lemma UnsetLimitSkipsUsage(fs: Files, cache: Cache, paths: Paths)
    requires DistinctPaths(paths)
    requires Read(fs, paths.cgroupMemoryMax) == Some("max")
    ensures CgroupAvailableMemoryBytes(fs, paths).value.None?
    ensures paths.cgroupMemoryCurrent !in DetermineAvailableMemoryBytes(fs, cache, paths).fetches
  {
    assert CgroupAvailableMemoryBytes(fs, paths) == Probe(None, [paths.cgroupMemoryMax]) by {
      assert MaxCgroupMemoryBytes(fs, paths.cgroupMemoryMax).Max?;
    }
    var meminfo := MeminfoFallback(fs, cache, paths.procMeminfo);
    assert paths.cgroupMemoryCurrent !in meminfo.fetches;
    assert DetermineAvailableMemoryBytes(fs, cache, paths).fetches == [paths.cgroupMemoryMax] + meminfo.fetches;
  }

  /** A cgroup whose usage has reached its limit counts as no cgroup
      information at all: the engine falls back to meminfo instead of
      returning zero or a negative figure. */
  lemma ExhaustedCgroupIgnored(fs: Files, cache: Cache, paths: Paths)
    requires DistinctPaths(paths)
    requires MaxCgroupMemoryBytes(fs, paths.cgroupMemoryMax).Bytes?
    requires CurrentCgroupMemoryUsageBytes(fs, paths.cgroupMemoryCurrent).Some?
    requires MaxCgroupMemoryBytes(fs, paths.cgroupMemoryMax).bytes <=
             CurrentCgroupMemoryUsageBytes(fs, paths.cgroupMemoryCurrent).value
    ensures DetermineAvailableMemoryBytes(fs, cache, paths).result ==
            DetermineAvailableMemoryBytes(fs - {paths.cgroupMemoryMax, paths.cgroupMemoryCurrent}, cache, paths).result
  {
    var bare := fs - {paths.cgroupMemoryMax, paths.cgroupMemoryCurrent};
    assert CgroupAvailableMemoryBytes(fs, paths).value.None?;
    WithoutCgroupFiles(fs, paths);
    MeminfoLookupsOnlyReadMeminfo(fs, bare, cache, paths);
  }

  /** A cgroup limit above the usage, both written as the kernel writes
      them, decides the answer whatever the meminfo file says. */
  lemma CgroupHeadroomWins(fs: Files, cache: Cache, paths: Paths, limit: int, usage: int)
    requires paths.cgroupMemoryMax != paths.cgroupMemoryCurrent
    requires paths.cgroupMemoryMax in fs && fs[paths.cgroupMemoryMax] == ShowInt(limit) + "\n"
    requires paths.cgroupMemoryCurrent in fs && fs[paths.cgroupMemoryCurrent] == ShowInt(usage) + "\n"
    requires limit > usage
    ensures DetermineAvailableMemoryBytes(fs, cache, paths) ==
            Run(Ok(limit - usage), cache, [paths.cgroupMemoryMax, paths.cgroupMemoryCurrent])
  {
    CgroupFileRoundTrip(fs, paths.cgroupMemoryMax, limit, "\n");
    CgroupFileRoundTrip(fs, paths.cgroupMemoryCurrent, usage, "\n");
    assert CgroupAvailableMemoryBytes(fs, paths).value == Some(limit - usage);
  }
}
