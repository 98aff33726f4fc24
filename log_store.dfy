/** The log store of logstore.go: a directory of append-only log files and
    the keydir, the sharded map from each key to the `Item` that says where
    its live value lies. Locks are not modelled (every operation is one
    sequential step); the clock and the names `createLogFile` invents are
    parameters. */
module Store {
  import opened Wrappers
  import opened Decimal
  import opened FileNames
  import opened ConcurrentMaps
  import opened LogCodec

  /** `MAX_LOG_FILE_BYTES`: the default capacity of one log file, 32 MiB. */
  const MaxLogFileBytes: int := 1024 * 1024 * 32

  /** The log directory: the bytes of each file, by name. */
  type Directory = map<FileName, seq<byte>>

  /** Why `CreateLogStore` gave up: a log file that does not parse. */
  datatype LoadError = BadLogFile(file: FileName, error: ParseError)

  /** The item names a file of the directory and its value lies inside it. */
  predicate Stored(dir: Directory, item: Item) {
    item.file in dir && ItemWithin(item, item.file, |dir[item.file]|)
  }

  /** How many bytes `io.CopyN` copies for a value size: none for -1. */
  function CopyLength(valueSize: int): nat {
    if valueSize < 0 then 0 else valueSize
  }

  /** The value bytes of a stored item, as `StreamGet` copies them out. */
  function ValueIn(dir: Directory, item: Item): seq<byte>
    requires Stored(dir, item)
  {
    dir[item.file][item.valuePos..item.valuePos + CopyLength(item.valueSize)]
  }

  /** Files only grow: every file is still there and starts with the bytes it had. */
  predicate Grows(before: Directory, after: Directory) {
    forall n :: n in before ==> n in after && before[n] <= after[n]
  }

  /** An item stored before a directory grows is stored after it, with the same value. */
  lemma GrowsKeepsValue(before: Directory, after: Directory, item: Item)
    requires Grows(before, after) && Stored(before, item)
    ensures Stored(after, item) && ValueIn(after, item) == ValueIn(before, item)
  {
    var f := item.file;
    var lo, hi := item.valuePos, item.valuePos + CopyLength(item.valueSize);
    assert before[f] == after[f][..|before[f]|];
    assert after[f][lo..hi] == after[f][..|before[f]|][lo..hi];
  }

  /** The roll test of `Set`: the record, `lineLength` bytes long, would
      take a file of `end` bytes to the capacity or beyond. */
  function Rolls(end: int, expire: int64, key: Key, value: seq<byte>, maxLogFileBytes: int): (r: bool)
    ensures r <==> end + |Header(expire, key, |value|)| + |value| + 1 >= maxLogFileBytes
  {
    end + |EncodeRecord(expire, key, value)| >= maxLogFileBytes
  }

  /** The item `Set` indexes for a record it appends at offset `end` of `file`. */
  function SetItem(file: FileName, end: int, expire: int64, key: Key, value: seq<byte>): (item: Item)
    ensures item.file == file && item.expire == expire && item.valueSize == |value|
    ensures item.valuePos == end + |Header(expire, key, |value|)|
    ensures item.valuePos + item.valueSize + 1 == end + |EncodeRecord(expire, key, value)|
  {
    Item(file, expire, ValueOffset(end, expire, key, value), |value|)
  }

  /** The value of a record appended after `base` lies right after the
      record's header `line`, just before the final comma. */
  lemma AppendedValue(base: seq<byte>, line: seq<byte>, value: seq<byte>)
    ensures var data := base + (line + Field(value));
            var pos := |base| + |line|;
            pos + |value| + 1 == |data| && data[pos..pos + |value|] == value
  {
    var data := base + (line + Field(value));
    assert data == (base + line) + value + [COMMA];
  }

  class LogStore {
    /** The files of the log directory. */
    var dir: Directory
    /** The file `Set` appends to (`logFile`). */
    var logFile: FileName
    /** The keydir (`keys`). */
    const keys: ConcurrentMap<Item>
    /** `opts.maxLogFileBytes`. */
    const maxLogFileBytes: int

    /** The keydir is a valid sharded map, the current log file exists, and
        every indexed value lies inside its file. */
    ghost predicate Valid()
      reads this, keys, keys.shards
    {
      && keys.Valid()
      && logFile in dir
      && forall k :: k in keys.Contents ==> Stored(dir, keys.Contents[k])
    }

    /** The `&LogStore{...}` literal that ends `CreateLogStore`. */
    constructor (dir: Directory, logFile: FileName, keys: ConcurrentMap<Item>, maxLogFileBytes: int)
      requires keys.Valid() && logFile in dir
      requires forall k :: k in keys.Contents ==> Stored(dir, keys.Contents[k])
      ensures Valid()
      ensures this.dir == dir && this.logFile == logFile
      ensures this.keys == keys && this.maxLogFileBytes == maxLogFileBytes
    {
      this.dir := dir;
      this.logFile := logFile;
      this.keys := keys;
      this.maxLogFileBytes := maxLogFileBytes;
    }

    /** `nextLogFile`: `createLogFile` makes the file `freshName`, empty
        (`os.Create` truncates), and `Set` appends to it from now on. */
    method NextLogFile(freshName: FileName)
      requires Valid() && freshName !in dir
      modifies this
      ensures Valid() && Grows(old(dir), dir)
      ensures logFile == freshName && dir == old(dir)[freshName := []]
    {
      dir := dir[freshName := []];
      logFile := freshName;
      forall k | k in keys.Contents
        ensures Stored(dir, keys.Contents[k])
      {
        GrowsKeepsValue(old(dir), dir, keys.Contents[k]);
      }
    }

    /** `Set`: appends the record `expire,len(key),len(value),key,value,`
        to the log file, first rolling to the new file `freshName` when the
        record would take the current one to its capacity; then indexes the
        key at the new item, or, for an expiry not after `now`, removes it. */
    method Set(key: Key, expire: int64, value: seq<byte>, now: int, freshName: FileName)
      requires Valid() && freshName !in dir
      modifies this, keys, keys.shards
      ensures Valid() && Grows(old(dir), dir)
      ensures old(Rolls(|dir[logFile]|, expire, key, value, maxLogFileBytes))
              ==> logFile == freshName && dir == old(dir)[freshName := EncodeRecord(expire, key, value)]
      ensures !old(Rolls(|dir[logFile]|, expire, key, value, maxLogFileBytes))
              ==> logFile == old(logFile) && dir == old(dir)[logFile := old(dir[logFile]) + EncodeRecord(expire, key, value)]
                  && |dir[logFile]| < maxLogFileBytes
      ensures var end := if old(Rolls(|dir[logFile]|, expire, key, value, maxLogFileBytes)) then 0 else old(|dir[logFile]|);
              keys.Contents == if now >= expire then old(keys.Contents) - {key}
                               else old(keys.Contents)[key := SetItem(logFile, end, expire, key, value)]
      ensures now < expire ==> ValueIn(dir, keys.Contents[key]) == value
    {
      var end := |dir[logFile]|;
      var line := Header(expire, key, |value|);
      var lineLength := |line| + |value| + 1;  // and the ending comma
      ghost var record := EncodeRecord(expire, key, value);
      assert record == line + Field(value);
      if end + lineLength >= maxLogFileBytes {
        NextLogFile(freshName);
        end := 0;  // new log files are empty
        assert [] + record == record;
        assert old(dir)[freshName := []][freshName := record] == old(dir)[freshName := record];
      }
      var item := Item(logFile, expire, end + |line|, |value|);
      assert item == SetItem(logFile, end, expire, key, value);
      AppendRecord(line, value, item);
      UpdateIndex(key, item, now);
    }

    /** The keydir update at the end of `Set`: an item that has expired by
        `now` deletes its key, any other item is bound to it. */
    method UpdateIndex(key: Key, item: Item, now: int)
      requires Valid() && Stored(dir, item)
      modifies keys, keys.shards
      ensures Valid()
      ensures keys.Contents == if now >= item.expire then old(keys.Contents) - {key} else old(keys.Contents)[key := item]
    {
      if now >= item.expire {
        keys.Delete(key);
      } else {
        keys.Set(key, item);
      }
    }

    /** `logFile.Write(data)` for the record with header `line`: the record
        lies at the end of the log file, and `item` finds its value right
        after the header; every value indexed before keeps its bytes. */
    method AppendRecord(line: seq<byte>, value: seq<byte>, item: Item)
      requires Valid()
      requires item.file == logFile && item.valuePos == |dir[logFile]| + |line| && item.valueSize == |value|
      modifies this
      ensures logFile == old(logFile) && dir == old(dir)[logFile := old(dir[logFile]) + (line + Field(value))]
      ensures Valid() && Grows(old(dir), dir)
      ensures Stored(dir, item) && ValueIn(dir, item) == value
    {
      var base := dir[logFile];
      dir := dir[logFile := base + (line + Field(value))];
      assert Grows(old(dir), dir);
      forall k | k in keys.Contents
        ensures Stored(dir, keys.Contents[k])
      {
        GrowsKeepsValue(old(dir), dir, keys.Contents[k]);
      }
      AppendedValue(base, line, value);
    }

    /** `StreamGet`: the value of `key` if it is indexed and not yet expired
        at `now`; an expired item is evicted from the keydir. */
    method StreamGet(key: Key, now: int) returns (found: bool, value: seq<byte>)
      requires Valid()
      modifies keys, keys.shards
      ensures Valid()
      ensures found <==> key in old(keys.Contents) && now < old(keys.Contents)[key].expire
      ensures found ==> value == ValueIn(dir, old(keys.Contents)[key])
      ensures !found ==> value == []
      ensures keys.Contents
              == if key in old(keys.Contents) && now >= old(keys.Contents)[key].expire then old(keys.Contents) - {key}
                 else old(keys.Contents)
    {
      var item := keys.Get(key);
      if item.None? {
        return false, [];
      } else if now >= item.value.expire {
        keys.Delete(key);  // clean up expired items
        return false, [];
      }
      var f := dir[item.value.file];  // os.Open, then Seek to valuePos
      value := f[item.value.valuePos..item.value.valuePos + CopyLength(item.value.valueSize)];
      found := true;
    }
  }

  /** The capacity `CreateLogStore` uses: the option's, or the default when
      no options are given. */
  function Capacity(maxBytes: Option<int>): int {
    if maxBytes.Some? then maxBytes.value else MaxLogFileBytes
  }

  /** The keys of a successfully parsed file, none for a file that fails. */
  function Parsed(dir: Directory, file: FileName, now: int): map<Key, Item>
    requires file in dir
  {
    var r := ParseSpec(file, dir[file], now);
    if r.Success? then r.value else map[]
  }

  /** The loading loop of `CreateLogStore`: the files `names` parsed in
      order, each file's keys merged over the keys before it by `MSet`, or
      the first file that does not parse. */
  function Load(dir: Directory, names: seq<FileName>, now: int): (r: Result<map<Key, Item>, LoadError>)
    requires forall i :: 0 <= i < |names| ==> names[i] in dir
  {
    if names == [] then Success(map[])
    else
      var last := names[|names| - 1];
      match Load(dir, names[..|names| - 1], now)
      case Failure(e) => Failure(e)
      case Success(keys) =>
        match ParseSpec(last, dir[last], now)
        case Failure(e) => Failure(BadLogFile(last, e))
        case Success(fileKeys) => Success(keys + fileKeys)
  }

  /** The file `CreateLogStore` opens for appending: the last file in name
      order while it is under capacity, otherwise (or in an empty
      directory) the new file `freshName`. */
  function ChosenLogFile(dir: Directory, names: seq<FileName>, capacity: int, freshName: FileName): FileName
    requires forall i :: 0 <= i < |names| ==> names[i] in dir
  {
    if names != [] && |dir[names[|names| - 1]]| < capacity then names[|names| - 1] else freshName
  }

  /** `CreateLogStore`: the directory listing `listing` (what `ReadDir`
      returns, in any order) sorted by name, every file parsed and merged
      into a new keydir in that order, then the log file chosen. */
  method CreateLogStore(dir: Directory, listing: seq<FileName>, maxBytes: Option<int>, now: int, freshName: FileName)
    returns (r: Result<LogStore, LoadError>)
    requires Distinct(listing) && (forall n :: n in listing <==> n in dir)
    requires freshName !in dir
    ensures var names := SortNames(listing);
            (forall i :: 0 <= i < |names| ==> names[i] in dir)
            && (r.Success? <==> Load(dir, names, now).Success?)
            && (r.Failure? ==> r.error == Load(dir, names, now).error)
            && (r.Success? ==> r.value.keys.Contents == Load(dir, names, now).value
                               && r.value.logFile == ChosenLogFile(dir, names, Capacity(maxBytes), freshName))
    ensures r.Success? ==> fresh(r.value) && fresh(r.value.keys) && fresh(r.value.keys.shards) && r.value.Valid()
    ensures r.Success? ==> r.value.maxLogFileBytes == Capacity(maxBytes)
    ensures r.Success? ==> r.value.dir == if r.value.logFile == freshName then dir[freshName := []] else dir
  {
    var capacity := Capacity(maxBytes);
    var names := SortNames(listing);
    NamesInDir(dir, listing, names);
    var keys, err := LoadLogFiles(dir, names, now);
    if err.Some? {
      return Failure(err.value);
    }
    var logDir, logFile := OpenLogFile(dir, names, capacity, freshName);
    forall k | k in keys.Contents
      ensures Stored(logDir, keys.Contents[k])
    {
      GrowsKeepsValue(dir, logDir, keys.Contents[k]);
    }
    var store := new LogStore(logDir, logFile, keys, capacity);
    return Success(store);
  }

  /** The end of `CreateLogStore`: reopen the latest file when there is
      room left in it, otherwise create the new file `freshName`. */
  method OpenLogFile(dir: Directory, names: seq<FileName>, capacity: int, freshName: FileName)
    returns (logDir: Directory, logFile: FileName)
    requires forall i :: 0 <= i < |names| ==> names[i] in dir
    requires freshName !in dir
    ensures logFile == ChosenLogFile(dir, names, capacity, freshName)
    ensures logDir == if logFile == freshName then dir[freshName := []] else dir
    ensures logFile in logDir && Grows(dir, logDir)
  {
    logDir, logFile := dir, freshName;
    if |names| > 0 {
      var latest := names[|names| - 1];
      if |dir[latest]| >= capacity {
        logDir := dir[freshName := []];  // the latest file is full: a new one
      } else {
        logFile := latest;  // room left in the latest file: reopen it
      }
    } else {
      logDir := dir[freshName := []];  // a new directory: the first log file
    }
  }

  /** The loop of `CreateLogStore` over the sorted files: each one parsed by
      `parseLogFile` and merged into a new keydir by `MSet`. */
  method LoadLogFiles(dir: Directory, names: seq<FileName>, now: int) returns (keys: ConcurrentMap<Item>, err: Option<LoadError>)
    requires forall i :: 0 <= i < |names| ==> names[i] in dir
    ensures fresh(keys) && fresh(keys.shards) && keys.Valid()
    ensures err.None? <==> Load(dir, names, now).Success?
    ensures err.Some? ==> err.value == Load(dir, names, now).error
    ensures err.None? ==> keys.Contents == Load(dir, names, now).value
    ensures forall k :: k in keys.Contents ==> Stored(dir, keys.Contents[k])
  {
    keys := new ConcurrentMap<Item>(SHARDS);
    var i := 0;
    assert names[..0] == [];
    while i < |names|
      invariant 0 <= i <= |names|
      invariant fresh(keys) && fresh(keys.shards) && keys.Valid()
      invariant Load(dir, names[..i], now).Success?
      invariant keys.Contents == Load(dir, names[..i], now).value
      invariant forall k :: k in keys.Contents ==> Stored(dir, keys.Contents[k])
    {
      assert names[..i + 1][..i] == names[..i];
      var parsed := ParseLogFile(names[i], dir[names[i]], now);
      if parsed.Failure? {
        LoadStops(dir, names, i + 1, now);
        return keys, Some(BadLogFile(names[i], parsed.error));
      }
      keys.MSet(parsed.value);
      i := i + 1;
    }
    assert names[..i] == names;
    err := None;
  }

  lemma NamesInDir(dir: Directory, listing: seq<FileName>, names: seq<FileName>)
    requires forall n :: n in listing <==> n in dir
    requires multiset(names) == multiset(listing)
    ensures forall i :: 0 <= i < |names| ==> names[i] in dir
  {
    forall i | 0 <= i < |names|
      ensures names[i] in dir
    {
      assert names[i] in multiset(names);
    }
  }

  /** A file that does not parse stops the load there: the files after it are never read. */
  lemma {:induction false} LoadStops(dir: Directory, names: seq<FileName>, j: nat, now: int)
    requires forall i :: 0 <= i < |names| ==> names[i] in dir
    requires 0 < j <= |names| && Load(dir, names[..j], now).Failure?
    ensures Load(dir, names, now) == Load(dir, names[..j], now)
    decreases |names|
  {
    if j < |names| {
      var init := names[..|names| - 1];
      assert init[..j] == names[..j];
      LoadStops(dir, init, j, now);
    } else {
      assert names[..j] == names;
    }
  }

  /** Offset agreement: after a log written by `Set` calls, one more record
      appended at its end parses, by `parseLogFile`, into exactly the change
      `Set` makes to the keydir: the key bound to the item `Set` computes,
      valuePos included, or removed when the record has expired. */
  lemma SetAgreesWithParse(ws: seq<Write>, w: Write, file: FileName, now: int)
    requires forall i :: 0 <= i < |ws| ==> Fits(ws[i])
    requires Fits(w)
    ensures var before := ParseSpec(file, EncodeLog(ws), now);
            var after := ParseSpec(file, EncodeLog(ws) + EncodeRecord(w.expire, w.key, w.value), now);
            && before.Success? && after.Success?
            && after.value == if now >= w.expire then before.value - {w.key}
                              else before.value[w.key := SetItem(file, |EncodeLog(ws)|, w.expire, w.key, w.value)]
  {
    var end := |EncodeLog(ws)|;
    var all := ws + [w];
    assert forall i :: 0 <= i < |all| ==> Fits(all[i]) by {
      forall i | 0 <= i < |all|
        ensures Fits(all[i])
      {
        if i < |ws| {
          assert all[i] == ws[i];
        }
      }
    }
    EncodeLogAppend(ws, w);
    WrittenLogParses(ws, file, now);
    WrittenLogParses(all, file, now);
    LayoutAppend(0, ws, w, end);
    IndexAppend(map[], Layout(0, ws), Placed(end, w), file, now);
  }

  /** A successful load parsed every file. */
  lemma {:induction false} LoadParsesAll(dir: Directory, names: seq<FileName>, now: int, i: nat)
    requires forall j :: 0 <= j < |names| ==> names[j] in dir
    requires Load(dir, names, now).Success? && i < |names|
    ensures ParseSpec(names[i], dir[names[i]], now).Success?
    decreases |names|
  {
    if i < |names| - 1 {
      var init := names[..|names| - 1];
      assert init[i] == names[i];
      LoadParsesAll(dir, init, now, i);
    }
  }

  /** Load order: a key takes its item from the last file, in load order,
      whose parsed keys bind it; what earlier files say of it is overridden. */
  lemma {:induction false} LoadLaterWins(dir: Directory, names: seq<FileName>, now: int, i: nat, k: Key)
    requires forall j :: 0 <= j < |names| ==> names[j] in dir
    requires Load(dir, names, now).Success?
    requires i < |names| && k in Parsed(dir, names[i], now)
    requires forall j :: i < j < |names| ==> k !in Parsed(dir, names[j], now)
    ensures k in Load(dir, names, now).value
    ensures Load(dir, names, now).value[k] == Parsed(dir, names[i], now)[k]
    decreases |names|
  {
    var init := names[..|names| - 1];
    if i < |names| - 1 {
      assert k !in Parsed(dir, names[|names| - 1], now);
      forall j | i < j < |init|
        ensures k !in Parsed(dir, init[j], now)
      {
        assert init[j] == names[j];
      }
      assert init[i] == names[i];
      LoadLaterWins(dir, init, now, i, k);
    }
  }

  /** Every key a load yields comes from some file that binds it. */
  lemma {:induction false} LoadFromFiles(dir: Directory, names: seq<FileName>, now: int, k: Key)
    requires forall j :: 0 <= j < |names| ==> names[j] in dir
    requires Load(dir, names, now).Success? && k in Load(dir, names, now).value
    ensures exists i :: 0 <= i < |names| && k in Parsed(dir, names[i], now)
    decreases |names|
  {
    var init := names[..|names| - 1];
    var last := |names| - 1;
    if k !in Parsed(dir, names[last], now) {
      LoadFromFiles(dir, init, now, k);
      var i :| 0 <= i < |init| && k in Parsed(dir, init[i], now);
      assert init[i] == names[i];
    }
  }

  /** A log holding the one record `w` is the encoding of that record. */
  lemma LogOfOne(w: Write)
    ensures EncodeLog([w]) == EncodeRecord(w.expire, w.key, w.value)
    ensures EncodeLog([]) + EncodeRecord(w.expire, w.key, w.value) == EncodeRecord(w.expire, w.key, w.value)
  {
    assert [w][1..] == [];
  }

  /** A file holding the one record `w` parses into that record's effect on no keys. */
  lemma OneRecordParses(w: Write, file: FileName, now: int)
    requires Fits(w)
    ensures var r := ParseSpec(file, EncodeRecord(w.expire, w.key, w.value), now);
            && r.Success?
            && r.value == if now >= w.expire then map[] else map[w.key := SetItem(file, 0, w.expire, w.key, w.value)]
  {
    LogOfOne(w);
    SetAgreesWithParse([], w, file, now);
    WrittenLogParses([], file, now);
    assert ParseSpec(file, EncodeLog([]), now).value == map[];
  }

  /** `MSet` only adds: a key removed by an expired record in a later file
      is still bound, to its item from an earlier file, after a reload,
      although the store that wrote both files had deleted it. */
  lemma ReloadKeepsDeletedKey(key: Key, value: seq<byte>, live: int64, dead: int64, now: int, first: FileName, second: FileName)
    requires |key| <= MaxInt64 && |value| <= MaxInt64
    requires dead <= now < live && first != second
    ensures var dir := map[first := EncodeRecord(live, key, value), second := EncodeRecord(dead, key, [])];
            && Load(dir, [first, second], now).Success?
            && key in Load(dir, [first, second], now).value
            && Load(dir, [first, second], now).value[key] == SetItem(first, 0, live, key, value)
  {
    var dir := map[first := EncodeRecord(live, key, value), second := EncodeRecord(dead, key, [])];
    OneRecordParses(Write(live, key, value), first, now);
    OneRecordParses(Write(dead, key, []), second, now);
    assert dir[first] == EncodeRecord(live, key, value) && dir[second] == EncodeRecord(dead, key, []);
    assert Parsed(dir, first, now) == map[key := SetItem(first, 0, live, key, value)];
    assert Parsed(dir, second, now) == map[];
    assert [first, second][..1] == [first];
    assert [first][..0] == [];
    var names := [first, second];
    assert names[0] == first && names[1] == second;
    assert key in Parsed(dir, names[0], now);
    assert forall j :: 0 < j < |names| ==> key !in Parsed(dir, names[j], now);
    assert Load(dir, [first], now).Success?;
    assert names[..1] == [first];
    assert Load(dir, names, now).Success?;
    LoadLaterWins(dir, names, now, 0, key);
  }

  /** The same two records in one file: the later, expired one deletes the key. */
  lemma OneFileDropsDeletedKey(key: Key, value: seq<byte>, live: int64, dead: int64, now: int, file: FileName)
    requires |key| <= MaxInt64 && |value| <= MaxInt64
    requires dead <= now < live
    ensures var both := EncodeRecord(live, key, value) + EncodeRecord(dead, key, []);
            ParseSpec(file, both, now).Success? && key !in ParseSpec(file, both, now).value
  {
    var w1, w2 := Write(live, key, value), Write(dead, key, []);
    LogOfOne(w1);
    SetAgreesWithParse([w1], w2, file, now);
  }

  /** In an ascending sequence of names, a name every other one sorts
      before is the last. */
  lemma {:induction false} GreatestIsLast(names: seq<FileName>, latest: FileName, i: nat)
    requires Sorted(names) && i < |names| && names[i] == latest
    requires Less(names[|names| - 1], latest) || names[|names| - 1] == latest
    ensures i == |names| - 1
  {
    if i < |names| - 1 {
      assert Less(latest, names[|names| - 1]);
      if names[|names| - 1] == latest {
        LessIrreflexive(latest);
      } else {
        LessAsymmetric(latest, names[|names| - 1]);
      }
    }
  }

  /** The file `CreateLogStore` reopens is the one with the greatest name,
      and only while it is under capacity; otherwise it is the new file. */
  lemma ChosenIsLatest(dir: Directory, listing: seq<FileName>, capacity: int, freshName: FileName, latest: FileName)
    requires Distinct(listing) && (forall n :: n in listing <==> n in dir)
    requires latest in dir && forall n :: n in dir && n != latest ==> Less(n, latest)
    ensures var names := SortNames(listing);
            (forall i :: 0 <= i < |names| ==> names[i] in dir)
            && ChosenLogFile(dir, names, capacity, freshName) == if |dir[latest]| < capacity then latest else freshName
  {
    var names := SortNames(listing);
    NamesInDir(dir, listing, names);
    assert latest in multiset(listing);
    assert latest in multiset(names);
    ChosenOfSorted(dir, names, capacity, freshName, latest);
  }

  lemma ChosenOfSorted(dir: Directory, names: seq<FileName>, capacity: int, freshName: FileName, latest: FileName)
    requires Sorted(names) && forall i :: 0 <= i < |names| ==> names[i] in dir
    requires latest in names && forall n :: n in dir && n != latest ==> Less(n, latest)
    ensures ChosenLogFile(dir, names, capacity, freshName) == if |dir[latest]| < capacity then latest else freshName
  {
    var i :| 0 <= i < |names| && names[i] == latest;
    assert names[|names| - 1] in dir;
    GreatestIsLast(names, latest, i);
  }

  /** An empty directory gets the new file. */
  lemma ChosenInEmptyDirectory(dir: Directory, listing: seq<FileName>, capacity: int, freshName: FileName)
    requires Distinct(listing) && (forall n :: n in listing <==> n in dir) && |dir| == 0
    ensures var names := SortNames(listing);
            (forall i :: 0 <= i < |names| ==> names[i] in dir)
            && ChosenLogFile(dir, names, capacity, freshName) == freshName
  {
    var names := SortNames(listing);
    NamesInDir(dir, listing, names);
    if names != [] {
      assert false;
    }
  }
}
