/** The file readers: the plain reader (an oracle over a snapshot of the
    filesystem) and the memoizing reader wrapped around it. */
module Filesystem {
  import opened Common
  import opened Text

  /** A snapshot of the readable files: path to raw, untrimmed content.
      A path outside the map is missing or unreadable; the reader does not
      tell the two apart. */
  type Files = map<string, string>

  /** The plain file reader: the trimmed content, or `None` when the file
      cannot be read. */
  function Read(fs: Files, path: string): (r: Option<string>)
    ensures r.None? <==> path !in fs
    ensures r.Some? ==> IsTrimmed(r.value) && |r.value| <= |fs[path]|
    // content with nothing to trim is handed on as it is
    ensures path in fs && IsTrimmed(fs[path]) ==> r == Some(fs[path])
  {
    if path in fs then
      if IsTrimmed(fs[path]) then TrimTrimmed(fs[path]); Some(Trim(fs[path]))
      else Some(Trim(fs[path]))
    else None
  }

  /** The plain reader returns the file's own content, with only trimmable
      characters removed around it. */
  lemma ReadStripsPadding(fs: Files, path: string)
    requires path in fs
    ensures StripsPadding(fs[path], Read(fs, path).value)
  {
    TrimStripsPadding(fs[path]);
  }

  /** The memo of the caching reader: path to the last result the plain
      reader gave. A stored `None` is kept in the map but, as PHP's `isset`
      is false for `null`, never served from it. */
  type Cache = map<string, Option<string>>

  /** The outcome of one cached read: what the caller gets, the memo
      afterwards, and whether the plain reader was consulted. */
  datatype CachedRead = CachedRead(content: Option<string>, cache: Cache, fetched: bool)

  /** True when the memo holds a usable (non-null) entry for `path`. */
  predicate Holds(cache: Cache, path: string)
  {
    path in cache && cache[path].Some?
  }

  /** The caching reader's `getFileContent`. */
  function GetFileContent(fs: Files, cache: Cache, path: string): (r: CachedRead)
    // a fetch happens exactly when no usable entry is stored
    ensures r.fetched <==> !Holds(cache, path)
    // a fetch hands on the plain reader's answer unchanged ...
    ensures r.fetched ==> r.content == Read(fs, path)
    // ... and otherwise the stored string is returned, whatever the file holds now
    ensures !r.fetched ==> r.content == cache[path] && r.cache == cache
    // the answer is what the memo now holds for the path
    ensures path in r.cache && r.cache[path] == r.content
    // no other entry is touched
    ensures r.cache.Keys == cache.Keys + {path}
    ensures forall q | q in cache && q != path :: r.cache[q] == cache[q]
  {
    if Holds(cache, path) then CachedRead(cache[path], cache, false)
    else
      var content := Read(fs, path);
      CachedRead(content, cache[path := content], true)
  }

  /** The caching reader's `clearCache`: afterwards nothing is served from memory. */
  function ClearCache(cache: Cache): (r: Cache)
    ensures forall path :: !Holds(r, path)
  {
    map[]
  }

  /** Every string the memo would serve still matches the files. */
  predicate Consistent(cache: Cache, fs: Files)
  {
    forall path | path in cache && cache[path].Some? :: cache[path] == Read(fs, path)
  }

  /** The first read of a path returns what the plain reader returns:
      the trimmed content, or `None` for a missing file. */
  lemma FirstReadDelegates(fs: Files, cache: Cache, path: string)
    requires path !in cache
    ensures GetFileContent(fs, cache, path).content == Read(fs, path)
    ensures GetFileContent(fs, cache, path).fetched
  {
  }

  /** Once a non-null result is stored, later reads of that path return it
      even after the file has changed, without reading the file again. */
  lemma PresentResultIsSticky(fs: Files, cache: Cache, path: string, later: Files)
    requires GetFileContent(fs, cache, path).content.Some?
    ensures var c := GetFileContent(fs, cache, path).cache;
            GetFileContent(later, c, path) == CachedRead(GetFileContent(fs, cache, path).content, c, false)
  {
  }

  /** A null result is not retained: the next read of that path consults
      the files again and sees their current state. */
  lemma AbsentResultIsRefetched(fs: Files, cache: Cache, path: string, later: Files)
    requires GetFileContent(fs, cache, path).content.None?
    ensures var c := GetFileContent(fs, cache, path).cache;
            GetFileContent(later, c, path).fetched &&
            GetFileContent(later, c, path).content == Read(later, path)
  {
  }

  /** After `clearCache` the next read of any path sees current content. */
  lemma ClearCacheRefetches(fs: Files, cache: Cache, path: string)
    ensures GetFileContent(fs, ClearCache(cache), path).content == Read(fs, path)
    ensures GetFileContent(fs, ClearCache(cache), path).fetched
  {
  }

  /** On files that have not changed since the memo was filled, the caching
      reader is indistinguishable from the plain one, and it keeps the memo
      in step with the files. */
  lemma ConsistentReadIsTransparent(fs: Files, cache: Cache, path: string)
    requires Consistent(cache, fs)
    ensures GetFileContent(fs, cache, path).content == Read(fs, path)
    ensures Consistent(GetFileContent(fs, cache, path).cache, fs)
  {
  }

  /** Reading the same path twice in a row costs at most one extra fetch:
      the second read repeats the first answer, and only refetches when
      that answer was null. */
  lemma RepeatedRead(fs: Files, cache: Cache, path: string)
    ensures var first := GetFileContent(fs, cache, path);
            var second := GetFileContent(fs, first.cache, path);
            second.content == first.content &&
            (second.fetched <==> first.content.None?)
  {
  }
}
