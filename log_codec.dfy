/** The log file format of logstore.go: the bytes `Set` appends for one
    record, and `parseLogFile`, which reads a file of such records back into
    a map from key to `Item`. */
module LogCodec {
  import opened Wrappers
  import opened Decimal
  import opened FileNames
  import opened ConcurrentMaps

  /** `Item`: where the live value of a key is kept: its log file, its expiry
      time (Unix milliseconds), and the offset and length of the value bytes. */
  datatype Item = Item(file: FileName, expire: int64, valuePos: int, valueSize: int)

  /** A field of a record: its bytes and the comma that ends it. */
  function Field(s: seq<byte>): seq<byte> {
    s + [COMMA]
  }

  /** The front of a record, `expire,len(key),len(value),key,`: the `line`
      that `Set` formats. The value starts right after it. */
  function Header(expire: int64, key: Key, valueSize: nat): seq<byte> {
    Field(FormatInt(expire)) + (Field(FormatInt(|key|)) + (Field(FormatInt(valueSize)) + Field(key)))
  }

  /** The whole record `Set` appends: the header, the value and a closing comma. */
  function EncodeRecord(expire: int64, key: Key, value: seq<byte>): seq<byte> {
    Header(expire, key, |value|) + Field(value)
  }

  /** The header `Set` formats is `expire,len(key),len(value),key,`: the
      three numbers in decimal, then the key bytes, each followed by a comma. */
  lemma HeaderLayout(expire: int64, key: Key, valueSize: nat)
    ensures var h := Header(expire, key, valueSize);
            var n1, n2, n3 := |FormatInt(expire)|, |FormatInt(|key|)|, |FormatInt(valueSize)|;
            && |h| == n1 + n2 + n3 + |key| + 4
            && h[..n1] == FormatInt(expire) && h[n1] == COMMA
            && h[n1 + 1..n1 + 1 + n2] == FormatInt(|key|) && h[n1 + 1 + n2] == COMMA
            && h[n1 + n2 + 2..n1 + n2 + 2 + n3] == FormatInt(valueSize) && h[n1 + n2 + 2 + n3] == COMMA
            && h[n1 + n2 + n3 + 3..|h| - 1] == key && h[|h| - 1] == COMMA
  {
    FieldsLayout(FormatInt(expire), FormatInt(|key|), FormatInt(valueSize), key);
  }

  /** Four fields in a row, each closed by its comma. */
  lemma FieldsLayout(f1: seq<byte>, f2: seq<byte>, f3: seq<byte>, f4: seq<byte>)
    ensures var h := Field(f1) + (Field(f2) + (Field(f3) + Field(f4)));
            var n1, n2, n3 := |f1|, |f2|, |f3|;
            && |h| == n1 + n2 + n3 + |f4| + 4
            && h[..n1] == f1 && h[n1] == COMMA
            && h[n1 + 1..n1 + 1 + n2] == f2 && h[n1 + 1 + n2] == COMMA
            && h[n1 + n2 + 2..n1 + n2 + 2 + n3] == f3 && h[n1 + n2 + 2 + n3] == COMMA
            && h[n1 + n2 + n3 + 3..|h| - 1] == f4 && h[|h| - 1] == COMMA
  {
    var h := Field(f1) + (Field(f2) + (Field(f3) + Field(f4)));
    assert h == f1 + [COMMA] + f2 + [COMMA] + f3 + [COMMA] + f4 + [COMMA];
  }

  /** The record `Set` writes is its header, then the value and a comma: it
      is `lineLength = len(line) + len(value) + 1` bytes long. */
  lemma RecordLayout(expire: int64, key: Key, value: seq<byte>)
    ensures var h, r := Header(expire, key, |value|), EncodeRecord(expire, key, value);
            && |r| == |h| + |value| + 1
            && r[..|h|] == h && r[|h|..|r| - 1] == value && r[|r| - 1] == COMMA
  {
    var h, r := Header(expire, key, |value|), EncodeRecord(expire, key, value);
    assert r == h + value + [COMMA];
  }

  /** Why `parseLogFile` gave up. BadKeyLength is a negative key size, on
      which Go's `make` or slice expression panics. */
  datatype ParseError =
    | BadExpire | MissingKeySize | BadKeySize | MissingValueSize | BadValueSize
    | BadKeyLength | ShortKey | ShortValue

  /** One record as `parseLogFile` reads it: the value is not read, only
      where it starts (`valueOffset`) and how long it is. */
  datatype RawRecord = RawRecord(expire: int64, key: Key, valueOffset: int, valueSize: int)

  /** `r.ReadBytes(COMMA)`: the position of the next comma at or after
      `from`, or `|data|` when the file ends first (Go's io.EOF). */
  function FindComma(data: seq<byte>, from: nat): (j: nat)
    requires from <= |data|
    ensures from <= j <= |data|
    decreases |data| - from
  {
    if from == |data| || data[from] == COMMA then from else FindComma(data, from + 1)
  }

  /** `FindComma` stops at the first comma: the field it delimits holds none. */
  lemma {:induction false} FindCommaFirst(data: seq<byte>, from: nat, to: nat)
    requires from <= to <= |data|
    requires forall i :: from <= i < to ==> data[i] != COMMA
    requires to < |data| ==> data[to] == COMMA
    ensures FindComma(data, from) == to
    decreases |data| - from
  {
    if from < to {
      FindCommaFirst(data, from + 1, to);
    }
  }

  /** A record whose value, and the comma after it, lie inside a file of `size` bytes. */
  predicate Within(rec: RawRecord, size: int) {
    0 <= rec.valueOffset && -1 <= rec.valueSize && rec.valueOffset + rec.valueSize + 1 <= size
  }

  predicate AllWithin(rs: seq<RawRecord>, size: int) {
    forall i :: 0 <= i < |rs| ==> Within(rs[i], size)
  }

  /** The outcome of reading one record: the clean end of the file, an
      error, or a record and the cursor after it. */
  datatype Step = End | Fail(error: ParseError) | Next(record: RawRecord, next: nat)

  /** A record read from cursor `cur` ends after it and inside the file. */
  predicate Advances(s: Step, cur: int, size: int) {
    s.Next? ==> cur < s.next <= size && Within(s.record, size) && s.record.valueOffset == s.next - s.record.valueSize - 1
  }

  /** Which of the three integer fields of a record is read next, with the
      ones already read. */
  datatype PendingField = ExpireField | KeySizeField(expire: int64) | ValueSizeField(expire: int64, keySize: int64)

  /** One pass of the loop in `parseLogFile` from cursor `cur`, up to the map
      update: the expire field, where io.EOF ends the file cleanly, then the
      rest of the record. */
  function RecordAt(data: seq<byte>, cur: nat): (s: Step)
    requires cur <= |data|
    ensures Advances(s, cur, |data|)
  {
    RecordFrom(data, cur, ExpireField)
  }

  /** The integer fields from `field` on, each read by `ReadBytes(',')` and
      `strconv.Atoi`, then the key and the value. io.EOF is a clean end only
      in the expire field. */
  function RecordFrom(data: seq<byte>, cur: nat, field: PendingField): (s: Step)
    requires cur <= |data|
    ensures (s.End? ==> field == ExpireField) && Advances(s, cur, |data|)
    decreases |data| - cur
  {
    var e := FindComma(data, cur);
    if e == |data| then
      match field
      case ExpireField => End
      case KeySizeField(_) => Fail(MissingKeySize)
      case ValueSizeField(_, _) => Fail(MissingValueSize)
    else match Atoi(data, cur, e)
      case None =>
        (match field
         case ExpireField => Fail(BadExpire)
         case KeySizeField(_) => Fail(BadKeySize)
         case ValueSizeField(_, _) => Fail(BadValueSize))
      case Some(n) =>
        match field
        case ExpireField => RecordFrom(data, e + 1, KeySizeField(n))
        case KeySizeField(expire) => RecordFrom(data, e + 1, ValueSizeField(expire, n))
        case ValueSizeField(expire, keySize) => RecordFromKey(data, e + 1, expire, keySize, n)
  }

  /** The key, read by length together with the comma after it, and the
      value, skipped by length together with its comma. Reads are exact: a
      key or value cut short by the end of the file is an error. */
  function RecordFromKey(data: seq<byte>, keyStart: nat, expire: int64, keySize: int64, valueSize: int64): (s: Step)
    requires 0 < keyStart <= |data|
    ensures !s.End? && Advances(s, keyStart, |data|)
  {
    if keySize < 0 then Fail(BadKeyLength)
    else if |data| - keyStart < keySize + 1 then Fail(ShortKey)
    else
      var valueOffset := keyStart + keySize + 1;
      if valueSize + 1 < 0 || |data| - valueOffset < valueSize + 1 then Fail(ShortValue)
      else Next(RawRecord(expire, data[keyStart..keyStart + keySize], valueOffset, valueSize), valueOffset + valueSize + 1)
  }

  /** What the loop in `parseLogFile` reads from cursor `cur` to the end of
      the file: the records in file order, or the first error. */
  function Records(data: seq<byte>, cur: nat): (r: Result<seq<RawRecord>, ParseError>)
    requires cur <= |data|
    ensures r.Success? ==> AllWithin(r.value, |data|)
    decreases |data| - cur
  {
    match RecordAt(data, cur)
    case End => Success([])
    case Fail(e) => Failure(e)
    case Next(rec, next) => Prepend([rec], Records(data, next))
  }

  function Prepend(done: seq<RawRecord>, r: Result<seq<RawRecord>, ParseError>): (p: Result<seq<RawRecord>, ParseError>)
    ensures p.Success? <==> r.Success?
    ensures p.Success? ==> p.value == done + r.value
  {
    match r
    case Success(rs) => Success(done + rs)
    case Failure(e) => Failure(e)
  }

  function ItemOf(rec: RawRecord, file: FileName): Item {
    Item(file, rec.expire, rec.valueOffset, rec.valueSize)
  }

  /** The effect of one record on the keys read so far: a live record
      (`now < expire`) binds its key, an expired one removes it. */
  function Apply(keys: map<Key, Item>, rec: RawRecord, file: FileName, now: int): map<Key, Item> {
    if now < rec.expire then keys[rec.key := ItemOf(rec, file)] else keys - {rec.key}
  }

  /** The records applied in file order. */
  function Index(keys: map<Key, Item>, rs: seq<RawRecord>, file: FileName, now: int): map<Key, Item> {
    if rs == [] then keys else Apply(Index(keys, rs[..|rs| - 1], file, now), rs[|rs| - 1], file, now)
  }

  /** An item that refers to `file` and whose value lies inside its `size` bytes. */
  predicate ItemWithin(item: Item, file: FileName, size: int) {
    item.file == file && Within(RawRecord(item.expire, [], item.valuePos, item.valueSize), size)
  }

  /** What `parseLogFile(path)` returns for a file holding `data` at time `now`. */
  function ParseSpec(file: FileName, data: seq<byte>, now: int): (r: Result<map<Key, Item>, ParseError>)
    ensures r.Success? ==> forall k :: k in r.value ==> ItemWithin(r.value[k], file, |data|)
  {
    match Records(data, 0)
    case Failure(e) => Failure(e)
    case Success(rs) =>
      IndexWithin(map[], rs, file, now, |data|);
      Success(Index(map[], rs, file, now))
  }

  lemma {:induction false} IndexWithin(keys: map<Key, Item>, rs: seq<RawRecord>, file: FileName, now: int, size: int)
    requires forall k :: k in keys ==> ItemWithin(keys[k], file, size)
    requires forall i :: 0 <= i < |rs| ==> Within(rs[i], size)
    ensures forall k :: k in Index(keys, rs, file, now) ==> ItemWithin(Index(keys, rs, file, now)[k], file, size)
  {
    if rs != [] {
      IndexWithin(keys, rs[..|rs| - 1], file, now, size);
    }
  }

  lemma PrependTwice(a: seq<RawRecord>, b: seq<RawRecord>, r: Result<seq<RawRecord>, ParseError>)
    ensures Prepend(a, Prepend(b, r)) == Prepend(a + b, r)
  {
    if r.Success? {
      assert a + (b + r.value) == a + b + r.value;
    }
  }

  /** The body of the loop in `parseLogFile` up to the map update. */
  method ReadRecord(data: seq<byte>, cur: nat) returns (s: Step)
    requires cur <= |data|
    ensures s == RecordAt(data, cur)
  {
    var end := FindComma(data, cur);
    if end == |data| {
      return End;  // io.EOF while reading the expire field
    }
    var expire := Atoi(data, cur, end);
    if expire.None? {
      return Fail(BadExpire);
    }
    s := ReadKeySize(data, end + 1, expire.value);
  }

  /** Reads the key size field, then the rest of the record. */
  method ReadKeySize(data: seq<byte>, cur: nat, expire: int64) returns (s: Step)
    requires cur <= |data|
    ensures s == RecordFrom(data, cur, KeySizeField(expire))
  {
    var end := FindComma(data, cur);
    if end == |data| {
      return Fail(MissingKeySize);
    }
    var keySize := Atoi(data, cur, end);
    if keySize.None? {
      return Fail(BadKeySize);
    }
    s := ReadValueSize(data, end + 1, expire, keySize.value);
  }

  /** Reads the value size field, then the key and the value. */
  method ReadValueSize(data: seq<byte>, cur: nat, expire: int64, keySize: int64) returns (s: Step)
    requires cur <= |data|
    ensures s == RecordFrom(data, cur, ValueSizeField(expire, keySize))
  {
    var end := FindComma(data, cur);
    if end == |data| {
      return Fail(MissingValueSize);
    }
    var valueSize := Atoi(data, cur, end);
    if valueSize.None? {
      return Fail(BadValueSize);
    }
    s := ReadKey(data, end + 1, expire, keySize, valueSize.value);
  }

  /** Reads the key and its comma by length, then skips the value and its
      comma: the cursor ends up just past the record. */
  method ReadKey(data: seq<byte>, start: nat, expire: int64, keySize: int64, valueSize: int64) returns (s: Step)
    requires 0 < start <= |data|
    ensures s == RecordFromKey(data, start, expire, keySize, valueSize)
  {
    if keySize < 0 {
      return Fail(BadKeyLength);  // make([]byte, keySize+1) panics
    }
    if |data| - start < keySize + 1 {
      return Fail(ShortKey);
    }
    var key := data[start..start + keySize];      // the key and its comma, comma dropped
    var valueOffset := start + keySize + 1;       // the value can be found at the cursor
    if valueSize + 1 < 0 || |data| - valueOffset < valueSize + 1 {
      return Fail(ShortValue);
    }
    return Next(RawRecord(expire, key, valueOffset, valueSize), valueOffset + valueSize + 1);
  }

  /** `parseLogFile`: the loop that advances the cursor `cur` record by
      record and inserts into or deletes from the map `keys`. */
  method ParseLogFile(file: FileName, data: seq<byte>, now: int) returns (r: Result<map<Key, Item>, ParseError>)
    ensures r == ParseSpec(file, data, now)
  {
    var keys: map<Key, Item> := map[];
    var cur := 0;
    ghost var done: seq<RawRecord> := [];
    PrependNothing(Records(data, 0));
    while true
      invariant 0 <= cur <= |data|
      invariant Records(data, 0) == Prepend(done, Records(data, cur))
      invariant keys == Index(map[], done, file, now)
      decreases |data| - cur
    {
      var step := ReadRecord(data, cur);
      match step
      case End =>
        ParseEnd(file, data, now, cur, done);
        return Success(keys);
      case Fail(e) =>
        ParseFails(file, data, now, cur, done, e);
        return Failure(e);
      case Next(rec, next) =>
        if now < rec.expire {
          keys := keys[rec.key := Item(file, rec.expire, rec.valueOffset, rec.valueSize)];
        } else {
          keys := keys - {rec.key};
        }
        ParseNext(data, cur, done, rec, next);
        IndexAppend(map[], done, rec, file, now);
        done := done + [rec];
        cur := next;
    }
  }

  lemma PrependNothing(r: Result<seq<RawRecord>, ParseError>)
    ensures Prepend([], r) == r
  {
    if r.Success? {
      assert [] + r.value == r.value;
    }
  }

  /** The records read so far, then one more. */
  lemma ParseNext(data: seq<byte>, cur: nat, done: seq<RawRecord>, rec: RawRecord, next: nat)
    requires cur <= |data| && next <= |data|
    requires Records(data, 0) == Prepend(done, Records(data, cur))
    requires RecordAt(data, cur) == Next(rec, next)
    ensures Records(data, 0) == Prepend(done + [rec], Records(data, next))
  {
    ReadThen(data, cur, rec, next);
    PrependTwice(done, [rec], Records(data, next));
  }

  /** The clean end of the file: every record has been read. */
  lemma ParseEnd(file: FileName, data: seq<byte>, now: int, cur: nat, done: seq<RawRecord>)
    requires cur <= |data|
    requires Records(data, 0) == Prepend(done, Records(data, cur))
    requires RecordAt(data, cur) == End
    ensures ParseSpec(file, data, now) == Success(Index(map[], done, file, now))
  {
    assert Records(data, cur) == Success([]);
    assert done + [] == done;
  }

  /** An error in any record is the error of the whole file. */
  lemma ParseFails(file: FileName, data: seq<byte>, now: int, cur: nat, done: seq<RawRecord>, e: ParseError)
    requires cur <= |data|
    requires Records(data, 0) == Prepend(done, Records(data, cur))
    requires RecordAt(data, cur) == Fail(e)
    ensures ParseSpec(file, data, now) == Failure(e)
  {
    assert Records(data, cur) == Failure(e);
  }

  /** Applying one more record to the map. */
  lemma IndexAppend(keys: map<Key, Item>, rs: seq<RawRecord>, rec: RawRecord, file: FileName, now: int)
    ensures Index(keys, rs + [rec], file, now) == Apply(Index(keys, rs, file, now), rec, file, now)
  {
    assert (rs + [rec])[..|rs + [rec]| - 1] == rs;
  }

  /* Round trip: the records `Set` writes are the records `parseLogFile` reads. */

  /** The bytes `s` lie in `data` from offset `at` on. */
  predicate LiesAt(data: seq<byte>, at: nat, s: seq<byte>) {
    at + |s| <= |data| && forall i {:trigger s[i]} :: 0 <= i < |s| ==> data[at + i] == s[i]
  }

  /** Two pieces lying one after the other. */
  lemma LiesAtSplit(data: seq<byte>, at: nat, a: seq<byte>, b: seq<byte>)
    requires LiesAt(data, at, a + b)
    ensures LiesAt(data, at, a) && LiesAt(data, at + |a|, b)
  {
    forall i | 0 <= i < |a|
      ensures data[at + i] == a[i]
    {
      assert (a + b)[i] == a[i];
    }
    forall i | 0 <= i < |b|
      ensures data[at + |a| + i] == b[i]
    {
      assert (a + b)[|a| + i] == b[i];
    }
  }

  /** Bytes lying at `at` are the slice of the file there. */
  lemma LiesAtSlice(data: seq<byte>, at: nat, s: seq<byte>)
    requires LiesAt(data, at, s)
    ensures data[at..at + |s|] == s
  {
    forall i | 0 <= i < |s|
      ensures data[at..at + |s|][i] == s[i]
    {
      assert data[at + i] == s[i];
    }
  }

  /** A field free of commas, lying at `at`, is what `ReadBytes` returns
      there, and `Atoi` reads it as it reads the field on its own. */
  lemma ReadFieldAt(data: seq<byte>, at: nat, e: nat, f: seq<byte>)
    requires COMMA !in f && LiesAt(data, at, Field(f)) && e == at + |f|
    ensures e < |data| && FindComma(data, at) == e && Atoi(data, at, e) == Atoi(f, 0, |f|)
  {
    forall i | at <= i < at + |f|
      ensures data[i] != COMMA
    {
      assert data[at + (i - at)] == Field(f)[i - at] == f[i - at];
    }
    assert data[at + |f|] == Field(f)[|f|];
    FindCommaFirst(data, at, at + |f|);
    LiesAtSplit(data, at, f, [COMMA]);
    LiesAtSlice(data, at, f);
    AtoiShift(data, at, f);
  }

  /** Once the three integer fields of a record have been found, ending at
      the commas `e1`, `e2` and `e3`, and read, and the key and the value
      follow them, the record reads back. */
  lemma FieldsFound(data: seq<byte>, at: nat, e1: nat, e2: nat, e3: nat,
                    expire: int64, keySize: int64, valueSize: int64, s: Step)
    requires at <= e1 < e2 < e3 < |data|
    requires FindComma(data, at) == e1 && Atoi(data, at, e1) == Some(expire)
    requires FindComma(data, e1 + 1) == e2 && Atoi(data, e1 + 1, e2) == Some(keySize)
    requires FindComma(data, e2 + 1) == e3 && Atoi(data, e2 + 1, e3) == Some(valueSize)
    requires RecordFromKey(data, e3 + 1, expire, keySize, valueSize) == s
    ensures RecordAt(data, at) == s
  {
    ExpireStep(data, at, e1, expire);
    KeySizeStep(data, e1 + 1, e2, expire, keySize);
    ValueSizeStep(data, e2 + 1, e3, expire, keySize, valueSize);
  }

  /** An expire field read at `cur`, ending at the comma `e`, hands over to the key size field. */
  lemma ExpireStep(data: seq<byte>, cur: nat, e: nat, expire: int64)
    requires cur <= e < |data| && FindComma(data, cur) == e && Atoi(data, cur, e) == Some(expire)
    ensures RecordAt(data, cur) == RecordFrom(data, e + 1, KeySizeField(expire))
  {
  }

  /** A key size field read at `cur`, ending at the comma `e`, hands over to the value size field. */
  lemma KeySizeStep(data: seq<byte>, cur: nat, e: nat, expire: int64, keySize: int64)
    requires cur <= e < |data| && FindComma(data, cur) == e && Atoi(data, cur, e) == Some(keySize)
    ensures RecordFrom(data, cur, KeySizeField(expire)) == RecordFrom(data, e + 1, ValueSizeField(expire, keySize))
  {
  }

  /** A value size field read at `cur`, ending at the comma `e`, hands over to the key. */
  lemma ValueSizeStep(data: seq<byte>, cur: nat, e: nat, expire: int64, keySize: int64, valueSize: int64)
    requires cur <= e < |data| && FindComma(data, cur) == e && Atoi(data, cur, e) == Some(valueSize)
    ensures RecordFrom(data, cur, ValueSizeField(expire, keySize)) == RecordFromKey(data, e + 1, expire, keySize, valueSize)
  {
  }

  /** A key and a value, each followed by its comma, lying at `keyStart`,
      are read back by length. */
  lemma KeyFound(data: seq<byte>, keyStart: nat, expire: int64, key: Key, value: seq<byte>)
    requires 0 < keyStart && |key| <= MaxInt64 && |value| <= MaxInt64
    requires LiesAt(data, keyStart, Field(key) + Field(value))
    ensures RecordFromKey(data, keyStart, expire, |key|, |value|)
         == Next(RawRecord(expire, key, keyStart + |key| + 1, |value|), keyStart + |key| + |value| + 2)
  {
    LiesAtSplit(data, keyStart, Field(key), Field(value));
    LiesAtSplit(data, keyStart, key, [COMMA]);
    LiesAtSlice(data, keyStart, key);
  }

  /** The three integer fields of a record, laid out as `Set` lays them out
      and ending at the commas `e1`, `e2` and `e3`, are found and read, and
      the key and the value follow them. */
  lemma FieldsRead(data: seq<byte>, at: nat, e1: nat, e2: nat, e3: nat,
                   f1: seq<byte>, f2: seq<byte>, f3: seq<byte>, key: Key, value: seq<byte>)
    requires COMMA !in f1 && COMMA !in f2 && COMMA !in f3
    requires LiesAt(data, at, Field(f1) + (Field(f2) + (Field(f3) + Field(key))) + Field(value))
    requires e1 == at + |f1| && e2 == e1 + 1 + |f2| && e3 == e2 + 1 + |f3|
    ensures e3 < |data|
    ensures FindComma(data, at) == e1 && Atoi(data, at, e1) == Atoi(f1, 0, |f1|)
    ensures FindComma(data, e1 + 1) == e2 && Atoi(data, e1 + 1, e2) == Atoi(f2, 0, |f2|)
    ensures FindComma(data, e2 + 1) == e3 && Atoi(data, e2 + 1, e3) == Atoi(f3, 0, |f3|)
    ensures LiesAt(data, e3 + 1, Field(key) + Field(value))
  {
    LiesAtFive(data, at, Field(f1), Field(f2), Field(f3), Field(key), Field(value));
    ReadFieldAt(data, at, e1, f1);
    ReadFieldAt(data, e1 + 1, e2, f2);
    ReadFieldAt(data, e2 + 1, e3, f3);
    LiesAtJoin(data, e3 + 1, Field(key), Field(value));
  }

  /** A record whose three integer fields hold no comma and read as its
      expiry and the sizes of its key and value, laid out as `Set` lays it
      out, reads back. */
  lemma FieldsLaidOut(data: seq<byte>, at: nat, f1: seq<byte>, f2: seq<byte>, f3: seq<byte>,
                      expire: int64, key: Key, value: seq<byte>)
    requires |key| <= MaxInt64 && |value| <= MaxInt64
    requires COMMA !in f1 && COMMA !in f2 && COMMA !in f3
    requires Atoi(f1, 0, |f1|) == Some(expire) && Atoi(f2, 0, |f2|) == Some(|key|) && Atoi(f3, 0, |f3|) == Some(|value|)
    requires LiesAt(data, at, Field(f1) + (Field(f2) + (Field(f3) + Field(key))) + Field(value))
    ensures RecordAt(data, at)
         == Next(RawRecord(expire, key, at + |f1| + |f2| + |f3| + |key| + 4, |value|),
                 at + |f1| + |f2| + |f3| + |key| + |value| + 5)
  {
    var e1 := at + |f1|;
    var e2 := e1 + 1 + |f2|;
    var e3 := e2 + 1 + |f3|;
    FieldsRead(data, at, e1, e2, e3, f1, f2, f3, key, value);
    KeyFound(data, e3 + 1, expire, key, value);
    FieldsFound(data, at, e1, e2, e3, expire, |key|, |value|, RecordFromKey(data, e3 + 1, expire, |key|, |value|));
  }

  /** Two pieces lying one after the other lie together. */
  lemma LiesAtJoin(data: seq<byte>, at: nat, a: seq<byte>, b: seq<byte>)
    requires LiesAt(data, at, a) && LiesAt(data, at + |a|, b)
    ensures LiesAt(data, at, a + b)
  {
    forall i | 0 <= i < |a + b|
      ensures data[at + i] == (a + b)[i]
    {
      if i < |a| {
        assert data[at + i] == a[i];
      } else {
        assert data[at + |a| + (i - |a|)] == b[i - |a|];
      }
    }
  }

  /** Five pieces lying one after the other. */
  lemma LiesAtFive(data: seq<byte>, at: nat, a: seq<byte>, b: seq<byte>, c: seq<byte>, d: seq<byte>, e: seq<byte>)
    requires LiesAt(data, at, a + (b + (c + d)) + e)
    ensures LiesAt(data, at, a) && LiesAt(data, at + |a|, b) && LiesAt(data, at + |a| + |b|, c)
    ensures LiesAt(data, at + |a| + |b| + |c|, d) && LiesAt(data, at + |a| + |b| + |c| + |d|, e)
  {
    LiesAtSplit(data, at, a + (b + (c + d)), e);
    LiesAtSplit(data, at, a, b + (c + d));
    LiesAtSplit(data, at + |a|, b, c + d);
    LiesAtSplit(data, at + |a| + |b|, c, d);
  }

  /** A file that holds no comma from `at` on ends the log cleanly there:
      `ReadBytes` reaches io.EOF in the expire field. */
  lemma ReadEnd(data: seq<byte>, at: nat)
    requires at <= |data|
    requires forall i :: at <= i < |data| ==> data[i] != COMMA
    ensures Records(data, at) == Success([])
  {
    FindCommaFirst(data, at, |data|);
  }

  /** Where the value of a record written at `at` starts: just after its header. */
  function ValueOffset(at: int, expire: int64, key: Key, value: seq<byte>): int {
    at + |Header(expire, key, |value|)|
  }

  /** The record `Set` appends at offset `at` reads back as its expiry, its key,
      and the position and length of its value, and the next record starts
      right after it. Both sizes must fit Go's `int` for `Atoi` to read them. */
  lemma ReadEncoded(data: seq<byte>, at: nat, expire: int64, key: Key, value: seq<byte>)
    requires |key| <= MaxInt64 && |value| <= MaxInt64
    requires LiesAt(data, at, EncodeRecord(expire, key, value))
    ensures RecordAt(data, at)
         == Next(RawRecord(expire, key, ValueOffset(at, expire, key, value), |value|), at + |EncodeRecord(expire, key, value)|)
  {
    AtoiFormatInt(expire);
    AtoiFormatInt(|key|);
    AtoiFormatInt(|value|);
    FieldsLaidOut(data, at, FormatInt(expire), FormatInt(|key|), FormatInt(|value|), expire, key, value);
  }

  /** A call to `Set`: the record it appends. */
  datatype Write = Write(expire: int64, key: Key, value: seq<byte>)

  /** Both sizes of a write fit Go's `int`, so `Atoi` reads them back. */
  predicate Fits(w: Write) {
    |w.key| <= MaxInt64 && |w.value| <= MaxInt64
  }

  /** The bytes of a log written by the calls `ws`, in order. */
  function EncodeLog(ws: seq<Write>): seq<byte> {
    if ws == [] then [] else EncodeRecord(ws[0].expire, ws[0].key, ws[0].value) + EncodeLog(ws[1..])
  }

  /** Appending one more record extends the log, as `Set` does. */
  lemma {:induction false} EncodeLogAppend(ws: seq<Write>, w: Write)
    ensures EncodeLog(ws + [w]) == EncodeLog(ws) + EncodeRecord(w.expire, w.key, w.value)
  {
    if ws == [] {
      assert [w][1..] == [];
    } else {
      assert (ws + [w])[1..] == ws[1..] + [w];
      EncodeLogAppend(ws[1..], w);
    }
  }

  /** Where the writes `ws` land in a log from offset `at` on: each record
      with its own expiry, key and value size, its value right after its header. */
  function Layout(at: int, ws: seq<Write>): (rs: seq<RawRecord>)
    decreases |ws|
    ensures |rs| == |ws|
  {
    if ws == [] then []
    else
      [Placed(at, ws[0])] + Layout(at + RecordSize(ws[0]), ws[1..])
  }

  /** How many bytes the record of a write takes. */
  function RecordSize(w: Write): nat {
    |EncodeRecord(w.expire, w.key, w.value)|
  }

  /** One more write lands right after the log the earlier writes make. */
  lemma {:induction false} LayoutAppend(at: int, ws: seq<Write>, w: Write, end: int)
    requires end == at + |EncodeLog(ws)|
    ensures Layout(at, ws + [w]) == Layout(at, ws) + [Placed(end, w)]
    decreases |ws|
  {
    if ws == [] {
      assert [w][1..] == [];
    } else {
      var next := at + |EncodeRecord(ws[0].expire, ws[0].key, ws[0].value)|;
      assert (ws + [w])[1..] == ws[1..] + [w];
      LayoutFirst(at, ws + [w], next);
      LayoutFirst(at, ws, next);
      EncodeLogLength(ws, at, next, end);
      LayoutAppend(next, ws[1..], w, end);
      ConsAppend(Placed(at, ws[0]), Layout(next, ws[1..]), Placed(end, w));
    }
  }

  lemma ConsAppend(x: RawRecord, rest: seq<RawRecord>, y: RawRecord)
    ensures [x] + (rest + [y]) == [x] + rest + [y]
  {
  }

  /** The record a write lands as at offset `at`. */
  function Placed(at: int, w: Write): RawRecord {
    RawRecord(w.expire, w.key, ValueOffset(at, w.expire, w.key, w.value), |w.value|)
  }

  /** The first write lands at `at`, the rest right after it. */
  lemma LayoutFirst(at: int, ws: seq<Write>, next: int)
    requires ws != [] && next == at + |EncodeRecord(ws[0].expire, ws[0].key, ws[0].value)|
    ensures Layout(at, ws) == [Placed(at, ws[0])] + Layout(next, ws[1..])
  {
    LayoutCons(at, ws, ws[0], ws[1..], next);
  }

  lemma LayoutCons(at: int, ws: seq<Write>, w: Write, rest: seq<Write>, next: int)
    requires ws != [] && w == ws[0] && rest == ws[1..] && next == at + RecordSize(w)
    ensures Layout(at, ws) == [Placed(at, w)] + Layout(next, rest)
  {
  }

  /** A log written by `Set` calls parses into the records `Layout` places,
      applied in order. */
  lemma WrittenLogParses(ws: seq<Write>, file: FileName, now: int)
    requires forall i :: 0 <= i < |ws| ==> Fits(ws[i])
    ensures ParseSpec(file, EncodeLog(ws), now) == Success(Index(map[], Layout(0, ws), file, now))
  {
    ReadWrites(ws, []);
    assert EncodeLog(ws) + [] == EncodeLog(ws);
  }

  /** Reading a record and then the rest of the file. */
  lemma ReadThen(data: seq<byte>, at: nat, rec: RawRecord, next: nat)
    requires at <= |data| && next <= |data|
    requires RecordAt(data, at) == Next(rec, next)
    ensures Records(data, at) == Prepend([rec], Records(data, next))
  {
  }

  /** The first record of a written log reads back, and the rest of the log
      follows it. */
  lemma ReadFirst(data: seq<byte>, at: nat, ws: seq<Write>, next: nat)
    requires ws != [] && Fits(ws[0])
    requires LiesAt(data, at, EncodeLog(ws))
    requires next == at + |EncodeRecord(ws[0].expire, ws[0].key, ws[0].value)|
    ensures RecordAt(data, at) == Next(Layout(at, ws)[0], next)
    ensures LiesAt(data, next, EncodeLog(ws[1..]))
  {
    var w := ws[0];
    LiesAtSplit(data, at, EncodeRecord(w.expire, w.key, w.value), EncodeLog(ws[1..]));
    ReadEncoded(data, at, w.expire, w.key, w.value);
  }

  /** A log ends where its first record does plus the length of the rest. */
  lemma EncodeLogLength(ws: seq<Write>, at: int, next: int, end: int)
    requires ws != []
    requires next == at + |EncodeRecord(ws[0].expire, ws[0].key, ws[0].value)|
    requires end == at + |EncodeLog(ws)|
    ensures end == next + |EncodeLog(ws[1..])|
  {
  }

  /** Reading no records leaves the outcome of reading the rest. */
  lemma ReadNothing(data: seq<byte>, at: nat)
    requires at <= |data|
    ensures Records(data, at) == Prepend(Layout(at, []), Records(data, at))
  {
    assert Records(data, at).Success? ==> [] + Records(data, at).value == Records(data, at).value;
  }

  /** The first record `Layout` places, then the rest, is the whole layout. */
  lemma PrependLayout(at: int, ws: seq<Write>, next: int, rest: Result<seq<RawRecord>, ParseError>)
    requires ws != []
    requires next == at + |EncodeRecord(ws[0].expire, ws[0].key, ws[0].value)|
    ensures Prepend([Layout(at, ws)[0]], Prepend(Layout(next, ws[1..]), rest)) == Prepend(Layout(at, ws), rest)
  {
    var rs := Layout(at, ws);
    assert rs == [rs[0]] + Layout(next, ws[1..]);
    PrependTwice([rs[0]], Layout(next, ws[1..]), rest);
  }

  /** The bytes of a log written by `Set` calls, wherever they stand in a
      file, read back as the records `Layout` places there, followed by
      whatever the bytes after them read as. */
  lemma {:induction false} ReadLog(data: seq<byte>, at: nat, ws: seq<Write>, end: nat)
    requires forall i :: 0 <= i < |ws| ==> Fits(ws[i])
    requires LiesAt(data, at, EncodeLog(ws)) && end == at + |EncodeLog(ws)|
    ensures end <= |data|
    ensures Records(data, at) == Prepend(Layout(at, ws), Records(data, end))
    decreases |ws|
  {
    if ws == [] {
      ReadNothing(data, at);
    } else {
      var next := at + |EncodeRecord(ws[0].expire, ws[0].key, ws[0].value)|;
      ReadFirst(data, at, ws, next);
      EncodeLogLength(ws, at, next, end);
      ReadLog(data, next, ws[1..], end);
      ReadThen(data, at, Layout(at, ws)[0], next);
      PrependLayout(at, ws, next, Records(data, end));
    }
  }

  /** A file written by `Set` calls, possibly cut inside the expire field of
      one more record (no comma yet), reads back as the records written:
      io.EOF in the expire field ends `parseLogFile` cleanly. */
  lemma ReadWrites(ws: seq<Write>, tail: seq<byte>)
    requires forall i :: 0 <= i < |ws| ==> Fits(ws[i])
    requires COMMA !in tail
    ensures Records(EncodeLog(ws) + tail, 0) == Success(Layout(0, ws))
  {
    var log := EncodeLog(ws);
    PrefixLiesAt(log, tail);
    ReadLog(log + tail, 0, ws, |log|);
    ReadTail(log, tail);
    assert Layout(0, ws) + [] == Layout(0, ws);
  }

  /** A file's first bytes lie at its start. */
  lemma PrefixLiesAt(a: seq<byte>, b: seq<byte>)
    ensures LiesAt(a + b, 0, a)
  {
    forall i | 0 <= i < |a|
      ensures (a + b)[0 + i] == a[i]
    {
    }
  }

  /** Bytes holding no comma, after the records, end the file cleanly. */
  lemma ReadTail(a: seq<byte>, b: seq<byte>)
    requires COMMA !in b
    ensures Records(a + b, |a|) == Success([])
  {
    forall i | |a| <= i < |a + b|
      ensures (a + b)[i] != COMMA
    {
      assert (a + b)[i] == b[i - |a|];
    }
    ReadEnd(a + b, |a|);
  }

  /** A record whose expire field is not an integer stops `parseLogFile` with an error. */
  lemma ExpireNotInteger(data: seq<byte>, at: nat, f: seq<byte>)
    requires COMMA !in f && Atoi(f, 0, |f|).None?
    requires LiesAt(data, at, Field(f))
    ensures Records(data, at) == Failure(BadExpire)
  {
    ReadFieldAt(data, at, at + |f|, f);
  }

  /** A record whose key size field is not an integer stops `parseLogFile` with an error. */
  lemma KeySizeNotInteger(data: seq<byte>, at: nat, f1: seq<byte>, expire: int64, f2: seq<byte>)
    requires COMMA !in f1 && Atoi(f1, 0, |f1|) == Some(expire)
    requires COMMA !in f2 && Atoi(f2, 0, |f2|).None?
    requires LiesAt(data, at, Field(f1) + Field(f2))
    ensures Records(data, at) == Failure(BadKeySize)
  {
    LiesAtSplit(data, at, Field(f1), Field(f2));
    ReadFieldAt(data, at, at + |f1|, f1);
    ReadFieldAt(data, at + |f1| + 1, at + |f1| + 1 + |f2|, f2);
    KeySizeFails(data, at, at + |f1|, at + |f1| + 1 + |f2|, expire);
  }

  /** Once the expire field is read, a key size field that `Atoi` rejects is an error. */
  lemma KeySizeFails(data: seq<byte>, at: nat, e1: nat, e2: nat, expire: int64)
    requires at <= e1 < e2 < |data|
    requires FindComma(data, at) == e1 && Atoi(data, at, e1) == Some(expire)
    requires FindComma(data, e1 + 1) == e2 && Atoi(data, e1 + 1, e2).None?
    ensures Records(data, at) == Failure(BadKeySize)
  {
    ExpireStep(data, at, e1, expire);
  }

  /** A record whose value size field is not an integer stops `parseLogFile` with an error. */
  lemma ValueSizeNotInteger(data: seq<byte>, at: nat, f1: seq<byte>, expire: int64,
                            f2: seq<byte>, keySize: int64, f3: seq<byte>)
    requires COMMA !in f1 && Atoi(f1, 0, |f1|) == Some(expire)
    requires COMMA !in f2 && Atoi(f2, 0, |f2|) == Some(keySize)
    requires COMMA !in f3 && Atoi(f3, 0, |f3|).None?
    requires LiesAt(data, at, Field(f1) + (Field(f2) + Field(f3)))
    ensures Records(data, at) == Failure(BadValueSize)
  {
    LiesAtSplit(data, at, Field(f1), Field(f2) + Field(f3));
    ReadFieldAt(data, at, at + |f1|, f1);
    ValueSizeNotIntegerAfter(data, at, at + |f1|, expire, f2, keySize, f3);
  }

  /** `ValueSizeNotInteger` once the expire field, ending at `e1`, is read. */
  lemma ValueSizeNotIntegerAfter(data: seq<byte>, at: nat, e1: nat, expire: int64,
                                 f2: seq<byte>, keySize: int64, f3: seq<byte>)
    requires at <= e1 < |data| && FindComma(data, at) == e1 && Atoi(data, at, e1) == Some(expire)
    requires COMMA !in f2 && Atoi(f2, 0, |f2|) == Some(keySize)
    requires COMMA !in f3 && Atoi(f3, 0, |f3|).None?
    requires LiesAt(data, e1 + 1, Field(f2) + Field(f3))
    ensures Records(data, at) == Failure(BadValueSize)
  {
    var e2 := e1 + 1 + |f2|;
    LiesAtSplit(data, e1 + 1, Field(f2), Field(f3));
    ReadFieldAt(data, e1 + 1, e2, f2);
    ReadFieldAt(data, e2 + 1, e2 + 1 + |f3|, f3);
    ValueSizeFails(data, at, e1, e2, e2 + 1 + |f3|, expire, keySize);
  }

  /** Once the expire and key size fields are read, a value size field that
      `Atoi` rejects is an error. */
  lemma ValueSizeFails(data: seq<byte>, at: nat, e1: nat, e2: nat, e3: nat, expire: int64, keySize: int64)
    requires at <= e1 < e2 < e3 < |data|
    requires FindComma(data, at) == e1 && Atoi(data, at, e1) == Some(expire)
    requires FindComma(data, e1 + 1) == e2 && Atoi(data, e1 + 1, e2) == Some(keySize)
    requires FindComma(data, e2 + 1) == e3 && Atoi(data, e2 + 1, e3).None?
    ensures Records(data, at) == Failure(BadValueSize)
  {
    ExpireStep(data, at, e1, expire);
    KeySizeStep(data, e1 + 1, e2, expire, keySize);
  }

  /** `ReadBytes` passes over no comma, and stops at one unless the file ends. */
  lemma {:induction false} FindCommaStops(data: seq<byte>, from: nat)
    requires from <= |data|
    ensures forall i :: from <= i < FindComma(data, from) ==> data[i] != COMMA
    ensures FindComma(data, from) < |data| ==> data[FindComma(data, from)] == COMMA
    decreases |data| - from
  {
    if from < |data| && data[from] != COMMA {
      FindCommaStops(data, from + 1);
    }
  }

  /** In a file cut at `c`, `ReadBytes` finds the same comma when it comes
      before the cut, and otherwise meets the end of the file. */
  lemma FindCommaPrefix(data: seq<byte>, c: nat, from: nat)
    requires from <= c <= |data|
    ensures FindComma(data[..c], from) == if FindComma(data, from) < c then FindComma(data, from) else c
  {
    var e := FindComma(data, from);
    FindCommaStops(data, from);
    var cut := data[..c];
    if e < c {
      assert cut[e] == data[e];
      FindCommaFirst(cut, from, e);
    } else {
      assert forall i :: from <= i < c ==> cut[i] == data[i];
      FindCommaFirst(cut, from, c);
    }
  }

  /** Cutting a file after a field leaves what `Atoi` reads there. */
  lemma AtoiPrefix(data: seq<byte>, c: nat, lo: nat, hi: nat)
    requires lo <= hi <= c <= |data|
    ensures Atoi(data[..c], lo, hi) == Atoi(data, lo, hi)
  {
    var t := data[lo..hi];
    assert data[..c][lo..hi] == t;
    AtoiShift(data[..c], lo, t);
    AtoiShift(data, lo, t);
  }

  /** A record laid out as `Set` lays it out at `at`, filling the rest of
      the file, cut by the end of the file anywhere after its expire field:
      `parseLogFile` fails, with a missing key or value size field, or a
      short key or value. */
  lemma TruncatedFieldsFail(full: seq<byte>, at: nat, f1: seq<byte>, f2: seq<byte>, f3: seq<byte>,
                            expire: int64, key: Key, value: seq<byte>, c: nat)
    requires |key| <= MaxInt64 && |value| <= MaxInt64
    requires COMMA !in f1 && COMMA !in f2 && COMMA !in f3
    requires Atoi(f1, 0, |f1|) == Some(expire) && Atoi(f2, 0, |f2|) == Some(|key|) && Atoi(f3, 0, |f3|) == Some(|value|)
    requires LiesAt(full, at, Field(f1) + (Field(f2) + (Field(f3) + Field(key))) + Field(value))
    requires |full| == at + |f1| + |f2| + |f3| + |key| + |value| + 5
    requires at + |f1| < c < |full|
    ensures Records(full[..c], at).Failure?
  {
    var e1 := at + |f1|;
    var e2 := e1 + 1 + |f2|;
    var e3 := e2 + 1 + |f3|;
    FieldsRead(full, at, e1, e2, e3, f1, f2, f3, key, value);
    CutFails(full, at, c, e1, e2, e3, expire, |key|, |value|);
  }

  /** A file whose record at `at` has its three integer fields end at `e1`,
      `e2` and `e3` and read as `expire`, `keySize` and `valueSize`, with
      the key and the value filling the rest of the file, cut at `c` after
      the expire field. */
  lemma CutFails(full: seq<byte>, at: nat, c: nat, e1: nat, e2: nat, e3: nat, expire: int64, keySize: int64, valueSize: int64)
    requires at <= e1 < c < |full| && e1 < e2 < e3 < |full|
    requires FindComma(full, at) == e1 && Atoi(full, at, e1) == Some(expire)
    requires FindComma(full, e1 + 1) == e2 && Atoi(full, e1 + 1, e2) == Some(keySize)
    requires FindComma(full, e2 + 1) == e3 && Atoi(full, e2 + 1, e3) == Some(valueSize)
    requires 0 <= keySize && 0 <= valueSize && |full| == e3 + keySize + valueSize + 3
    ensures Records(full[..c], at).Failure?
  {
    FindCommaPrefix(full, c, at);
    AtoiPrefix(full, c, at, e1);
    FindCommaPrefix(full, c, e1 + 1);
    if c <= e2 {
      CutInKeySize(full[..c], at, e1, expire);
    } else {
      CutAfterKeySize(full, at, c, e1, e2, e3, expire, keySize, valueSize);
    }
  }

  /** `CutFails` when the cut comes after the comma of the key size field. */
  lemma CutAfterKeySize(full: seq<byte>, at: nat, c: nat, e1: nat, e2: nat, e3: nat, expire: int64, keySize: int64, valueSize: int64)
    requires at <= e1 && e2 < c < |full| && e1 < e2 < e3 < |full|
    requires FindComma(full[..c], at) == e1 && Atoi(full[..c], at, e1) == Some(expire)
    requires FindComma(full[..c], e1 + 1) == e2
    requires Atoi(full, e1 + 1, e2) == Some(keySize)
    requires FindComma(full, e2 + 1) == e3 && Atoi(full, e2 + 1, e3) == Some(valueSize)
    requires 0 <= keySize && 0 <= valueSize && |full| == e3 + keySize + valueSize + 3
    ensures Records(full[..c], at).Failure?
  {
    AtoiPrefix(full, c, e1 + 1, e2);
    FindCommaPrefix(full, c, e2 + 1);
    if c <= e3 {
      CutInValueSize(full[..c], at, e1, e2, expire, keySize);
    } else {
      CutInKeyOrValue(full, at, c, e1, e2, e3, expire, keySize, valueSize);
    }
  }

  /** The file ends inside the key or the value: the three integer fields
      are read, and the key and value they announce do not fit. */
  lemma CutInKeyOrValue(full: seq<byte>, at: nat, c: nat, e1: nat, e2: nat, e3: nat, expire: int64, keySize: int64, valueSize: int64)
    requires at <= e1 < e2 < e3 < c < |full|
    requires FindComma(full[..c], at) == e1 && Atoi(full[..c], at, e1) == Some(expire)
    requires FindComma(full[..c], e1 + 1) == e2 && Atoi(full[..c], e1 + 1, e2) == Some(keySize)
    requires FindComma(full[..c], e2 + 1) == e3 && Atoi(full, e2 + 1, e3) == Some(valueSize)
    requires 0 <= keySize && 0 <= valueSize && |full| == e3 + keySize + valueSize + 3
    ensures Records(full[..c], at).Failure?
  {
    var data := full[..c];
    AtoiPrefix(full, c, e2 + 1, e3);
    FieldsFound(data, at, e1, e2, e3, expire, keySize, valueSize, RecordFromKey(data, e3 + 1, expire, keySize, valueSize));
  }

  /** The file ends inside the key size field. */
  lemma CutInKeySize(data: seq<byte>, at: nat, e1: nat, expire: int64)
    requires at <= e1 < |data|
    requires FindComma(data, at) == e1 && Atoi(data, at, e1) == Some(expire)
    requires FindComma(data, e1 + 1) == |data|
    ensures Records(data, at) == Failure(MissingKeySize)
  {
    ExpireStep(data, at, e1, expire);
  }

  /** The file ends inside the value size field. */
  lemma CutInValueSize(data: seq<byte>, at: nat, e1: nat, e2: nat, expire: int64, keySize: int64)
    requires at <= e1 < e2 < |data|
    requires FindComma(data, at) == e1 && Atoi(data, at, e1) == Some(expire)
    requires FindComma(data, e1 + 1) == e2 && Atoi(data, e1 + 1, e2) == Some(keySize)
    requires FindComma(data, e2 + 1) == |data|
    ensures Records(data, at) == Failure(MissingValueSize)
  {
    ExpireStep(data, at, e1, expire);
    KeySizeStep(data, e1 + 1, e2, expire, keySize);
  }

  /** A record `Set` writes, standing at `at` and cut by the end of the file
      anywhere after the comma of its expire field, makes `parseLogFile`
      fail: only a cut inside the expire field is a clean end. */
  lemma TruncatedRecordFails(data: seq<byte>, at: nat, expire: int64, key: Key, value: seq<byte>, c: nat)
    requires |key| <= MaxInt64 && |value| <= MaxInt64
    requires |FormatInt(expire)| < c < |EncodeRecord(expire, key, value)|
    requires LiesAt(data, at, EncodeRecord(expire, key, value)[..c]) && |data| == at + c
    ensures Records(data, at).Failure?
  {
    var rec := EncodeRecord(expire, key, value);
    var full := data + rec[c..];
    CompleteRecord(data, at, rec, c);
    AtoiFormatInt(expire);
    AtoiFormatInt(|key|);
    AtoiFormatInt(|value|);
    RecordLayout(expire, key, value);
    HeaderLayout(expire, key, |value|);
    TruncatedFieldsFail(full, at, FormatInt(expire), FormatInt(|key|), FormatInt(|value|), expire, key, value, at + c);
  }

  /** A file holding the first `c` bytes of `rec` at its end is the cut of
      the file that holds all of `rec` there. */
  lemma CompleteRecord(data: seq<byte>, at: nat, rec: seq<byte>, c: nat)
    requires c <= |rec| && LiesAt(data, at, rec[..c]) && |data| == at + c
    ensures LiesAt(data + rec[c..], at, rec) && (data + rec[c..])[..at + c] == data
  {
    var full := data + rec[c..];
    forall i | 0 <= i < |rec|
      ensures full[at + i] == rec[i]
    {
      if i < c {
        assert rec[..c][i] == rec[i];
      } else {
        assert full[at + i] == rec[c..][i - c];
      }
    }
  }

  /** A log written by `Set` calls and torn inside the record of one more
      `Set`, anywhere after its expire field, does not load: `parseLogFile`
      reports an error for the whole file. */
  lemma TornWriteFails(ws: seq<Write>, w: Write, c: nat, file: FileName, now: int)
    requires forall i :: 0 <= i < |ws| ==> Fits(ws[i])
    requires Fits(w) && |FormatInt(w.expire)| < c < |EncodeRecord(w.expire, w.key, w.value)|
    ensures ParseSpec(file, EncodeLog(ws) + EncodeRecord(w.expire, w.key, w.value)[..c], now).Failure?
  {
    var log := EncodeLog(ws);
    var torn := EncodeRecord(w.expire, w.key, w.value)[..c];
    var data := log + torn;
    PrefixLiesAt(log, torn);
    ReadLog(data, 0, ws, |log|);
    SuffixLiesAt(log, torn);
    TruncatedRecordFails(data, |log|, w.expire, w.key, w.value, c);
  }

  /** A file's last bytes lie after its first ones. */
  lemma SuffixLiesAt(a: seq<byte>, b: seq<byte>)
    ensures LiesAt(a + b, |a|, b)
  {
    forall i | 0 <= i < |b|
      ensures (a + b)[|a| + i] == b[i]
    {
    }
  }

  /** A record cut short after its expire field, before the comma that ends
      the key size, stops `parseLogFile` with an error: only the expire field
      may meet the end of the file. */
  lemma TruncatedAfterExpire(data: seq<byte>, at: nat, f: seq<byte>, expire: int64, rest: seq<byte>)
    requires COMMA !in f && Atoi(f, 0, |f|) == Some(expire)
    requires COMMA !in rest
    requires LiesAt(data, at, Field(f) + rest) && at + |f| + 1 + |rest| == |data|
    ensures Records(data, at) == Failure(MissingKeySize)
  {
    LiesAtSplit(data, at, Field(f), rest);
    ReadFieldAt(data, at, at + |f|, f);
    var k := at + |f| + 1;
    forall i | k <= i < |data|
      ensures data[i] != COMMA
    {
      assert data[k + (i - k)] == rest[i - k];
    }
    FindCommaFirst(data, k, |data|);
    assert RecordAt(data, at) == RecordFrom(data, k, KeySizeField(expire));
  }

  /** The last record for `key` among `rs`, if any. */
  function LastFor(rs: seq<RawRecord>, key: Key): (r: Option<RawRecord>)
    ensures r.Some? ==> r.value in rs && r.value.key == key
    ensures r.Some? ==> exists i :: 0 <= i < |rs| && rs[i] == r.value && forall j :: i < j < |rs| ==> rs[j].key != key
    ensures r.None? ==> forall i :: 0 <= i < |rs| ==> rs[i].key != key
  {
    if rs == [] then None
    else if rs[|rs| - 1].key == key then Some(rs[|rs| - 1])
    else LastFor(rs[..|rs| - 1], key)
  }

  /** Last writer wins: after the records `rs`, a key is bound exactly when
      its last record is live, and then to that record's item; an expired
      last record removes it; a key without records keeps its binding. */
  lemma {:induction false} IndexLastWriterWins(keys: map<Key, Item>, rs: seq<RawRecord>, file: FileName, now: int, key: Key)
    ensures LastFor(rs, key).None? ==>
              (key in Index(keys, rs, file, now) <==> key in keys)
              && (key in keys ==> Index(keys, rs, file, now)[key] == keys[key])
    ensures LastFor(rs, key).Some? ==>
              (key in Index(keys, rs, file, now) <==> now < LastFor(rs, key).value.expire)
              && (key in Index(keys, rs, file, now) ==> Index(keys, rs, file, now)[key] == ItemOf(LastFor(rs, key).value, file))
  {
    if rs != [] {
      IndexLastWriterWins(keys, rs[..|rs| - 1], file, now, key);
    }
  }
}
