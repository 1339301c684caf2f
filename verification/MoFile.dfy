/** The GNU MO files that convertStringsFile of twistedcaldav/localization.py writes, and a
    reader for them, after the MO file format of the GNU gettext manual. */
module MoFile {

  import opened Collections

  type Byte = x: int | 0 <= x < 256
  type Bytes = seq<Byte>

  // ----- Integers -----

  const INT_LIMIT := 0x8000_0000
  const MAGIC := 0x950412DE

  /** A 32-bit integer, low byte first. */
  function Word(n: nat): (w: Bytes)
    requires n < 2 * INT_LIMIT
    ensures |w| == 4
  {
    [n % 256, n / 256 % 256, n / 65536 % 256, n / 16777216]
  }

  function WordAt(b: Bytes, at: nat): nat
    requires at + 4 <= |b|
  {
    var b0: int, b1: int, b2: int, b3: int := b[at], b[at + 1], b[at + 2], b[at + 3];
    b0 + 256 * b1 + 65536 * b2 + 16777216 * b3
  }

  lemma WordIs(b: Bytes, at: nat, n: nat)
    requires n < 2 * INT_LIMIT && at + 4 <= |b| && b[at..at + 4] == Word(n)
    ensures WordAt(b, at) == n
  {
    var w := b[at..at + 4];
    assert b[at] == w[0] && b[at + 1] == w[1] && b[at + 2] == w[2] && b[at + 3] == w[3];
    assert n / 256 / 256 == n / 65536 && n / 65536 / 256 == n / 16777216;
  }

  ghost predicate AllWords(ns: seq<nat>) {
    forall i :: 0 <= i < |ns| ==> ns[i] < 2 * INT_LIMIT
  }

  function Pack(ns: seq<nat>): (b: Bytes)
    requires AllWords(ns)
    ensures |b| == 4 * |ns|
  {
    if ns == [] then [] else Pack(ns[..|ns| - 1]) + Word(ns[|ns| - 1])
  }

  lemma {:induction false} PackAt(ns: seq<nat>, i: nat)
    requires AllWords(ns) && i < |ns|
    ensures Pack(ns)[4 * i..4 * i + 4] == Word(ns[i])
  {
    var front := ns[..|ns| - 1];
    if i < |front| {
      PackAt(front, i);
      assert Pack(ns)[4 * i..4 * i + 4] == Pack(front)[4 * i..4 * i + 4];
    }
  }

  lemma PackMore(ns: seq<nat>, n: nat)
    requires AllWords(ns) && n < 2 * INT_LIMIT
    ensures AllWords(ns + [n]) && Pack(ns + [n]) == Pack(ns) + Word(n)
  {
    assert (ns + [n])[..|ns|] == ns;
  }

  lemma {:induction false} PackJoins(a: seq<nat>, b: seq<nat>)
    requires AllWords(a) && AllWords(b)
    ensures AllWords(a + b) && Pack(a + b) == Pack(a) + Pack(b)
  {
    if b == [] {
      assert a + b == a;
    } else {
      hide Pack, Word, AllWords;
      var front, n := b[..|b| - 1], b[|b| - 1];
      assert b == front + [n];
      WordsFront(front, n);
      PackJoins(a, front);
      PackMore(front, n);
      PackMore(a + front, n);
      Associative(a, front, [n]);
      Associative(Pack(a), Pack(front), Word(n));
    }
  }

  lemma WordsFront(ns: seq<nat>, n: nat)
    requires AllWords(ns + [n])
    ensures AllWords(ns) && n < 2 * INT_LIMIT
  {
    assert (ns + [n])[|ns|] == n;
    assert forall i :: 0 <= i < |ns| ==> ns[i] == (ns + [n])[i];
  }

  lemma Associative<T>(x: seq<T>, y: seq<T>, z: seq<T>)
    ensures (x + y) + z == x + (y + z)
  {
  }

  // ----- Strings -----

  /** Strings one after the other, each with a NUL behind it. */
  function Data(ss: seq<Bytes>): Bytes {
    if ss == [] then [] else Data(ss[..|ss| - 1]) + ss[|ss| - 1] + [0]
  }

  function Offset(ss: seq<Bytes>, i: nat): nat
    requires i <= |ss|
  {
    |Data(ss[..i])|
  }

  /** Each string is where its offset says, followed by a NUL and then by the next one. */
  lemma {:induction false} DataAt(ss: seq<Bytes>, i: nat)
    requires i < |ss|
    ensures Offset(ss, i + 1) == Offset(ss, i) + |ss[i]| + 1 <= |Data(ss)|
    ensures Data(ss)[Offset(ss, i)..Offset(ss, i) + |ss[i]|] == ss[i]
    ensures Data(ss)[Offset(ss, i) + |ss[i]|] == 0
  {
    var front, s := ss[..|ss| - 1], ss[|ss| - 1];
    assert ss[..i + 1][..i] == ss[..i];
    if i < |front| {
      DataAt(front, i);
      assert front[..i] == ss[..i] && front[..i + 1] == ss[..i + 1];
      var at := Offset(ss, i);
      assert Data(ss)[at..at + |ss[i]|] == Data(front)[at..at + |ss[i]|];
    } else {
      assert ss[..i + 1] == ss;
      assert Data(ss)[|Data(front)|..|Data(front)| + |s|] == s;
    }
  }

  // ----- The order of the originals -----

  ghost predicate Ordered(ks: seq<Bytes>) {
    forall i, j :: 0 <= i < j < |ks| ==> Less(ks[i], ks[j])
  }

  method SortKeys(keys: set<Bytes>) returns (ks: seq<Bytes>)
    ensures Ordered(ks) && forall k :: k in ks <==> k in keys
  {
    hide Less;
    ks := [];
    var todo := keys;
    while todo != {}
      invariant todo <= keys && Ordered(ks) && forall k :: k in ks <==> k in keys && k !in todo
      decreases |todo|
    {
      var k := Pick(todo);
      ks := InsertKey(ks, k);
      todo := todo - {k};
    }
  }

  method Pick(s: set<Bytes>) returns (k: Bytes)
    requires s != {}
    ensures k in s
  {
    k :| k in s;
  }

  method InsertKey(ks: seq<Bytes>, k: Bytes) returns (more: seq<Bytes>)
    requires Ordered(ks) && k !in ks
    ensures Ordered(more) && forall x :: x in more <==> x == k || x in ks
  {
    hide Less, Before;
    var i := 0;
    while i < |ks| && Before(ks[i], k)
      invariant i <= |ks| && forall j :: 0 <= j < i ==> Less(ks[j], k)
    {
      BeforeIsLess(ks[i], k);
      i := i + 1;
    }
    forall j | i <= j < |ks|
      ensures Less(k, ks[j])
    {
      BeforeIsLess(ks[i], k);
      LessIsTotal(k, ks[i]);
      if j > i {
        LessIsTransitive(k, ks[i], ks[j]);
      }
    }
    more := ks[..i] + [k] + ks[i..];
  }

  // ----- The file -----

  type Strings = map<Bytes, Bytes>

  ghost predicate KeysOf(ks: seq<Bytes>, strings: Strings) {
    Ordered(ks) && forall k :: k in ks <==> k in strings
  }

  function Translations(ks: seq<Bytes>, strings: Strings): (ts: seq<Bytes>)
    requires forall k :: k in ks ==> k in strings
    ensures |ts| == |ks| && forall i :: 0 <= i < |ks| ==> ts[i] == strings[ks[i]]
  {
    seq(|ks|, i requires 0 <= i < |ks| => strings[ks[i]])
  }

  /** Length and offset of each string. */
  function Descriptors(ss: seq<Bytes>, base: nat): (ds: seq<nat>)
    ensures |ds| == 2 * |ss|
  {
    if ss == [] then []
    else Descriptors(ss[..|ss| - 1], base) + [|ss[|ss| - 1]|, base + |Data(ss[..|ss| - 1])|]
  }

  lemma {:induction false} DescriptorsAt(ss: seq<Bytes>, base: nat, i: nat)
    requires i < |ss|
    ensures Descriptors(ss, base)[2 * i] == |ss[i]|
    ensures Descriptors(ss, base)[2 * i + 1] == base + Offset(ss, i)
  {
    var front := ss[..|ss| - 1];
    if i < |front| {
      DescriptorsAt(front, base, i);
      assert front[..i] == ss[..i];
    }
  }

  function Header(n: nat): seq<nat> {
    [MAGIC, 0, n, 28, 28 + n * 8, 0, 0]
  }

  function KeysOffset(ks: seq<Bytes>): nat {
    28 + |ks| * 2 * 8
  }

  function ValuesOffset(ks: seq<Bytes>): nat {
    KeysOffset(ks) + |Data(ks)|
  }

  function Words(ks: seq<Bytes>, ts: seq<Bytes>): seq<nat> {
    Header(|ks|) + Descriptors(ks, KeysOffset(ks)) + Descriptors(ts, ValuesOffset(ks))
  }

  /** Packing a number that is not a 32-bit signed integer raises; the magic number, packed as
      an unsigned one, is exempt. */
  predicate Fits(ks: seq<Bytes>, ts: seq<Bytes>) {
    forall i :: 1 <= i < |Words(ks, ts)| ==> Words(ks, ts)[i] < INT_LIMIT
  }

  lemma {:induction false} DescriptorsBounded(ss: seq<Bytes>, base: nat)
    ensures forall j :: 0 <= j < |Descriptors(ss, base)| ==> Descriptors(ss, base)[j] < base + |Data(ss)|
  {
    if ss != [] {
      DescriptorsBounded(ss[..|ss| - 1], base);
    }
  }

  /** Every number fits if the file is at most two gigabytes long. */
  lemma SmallFilesFit(ks: seq<Bytes>, ts: seq<Bytes>)
    requires |ks| == |ts| && 28 + 16 * |ks| + |Data(ks)| + |Data(ts)| <= 0x8000_0000
    ensures Fits(ks, ts) && AllWords(Words(ks, ts))
  {
    hide Descriptors, Data;
    DescriptorsBounded(ks, KeysOffset(ks));
    DescriptorsBounded(ts, ValuesOffset(ks));
    var h, d, e := Header(|ks|), Descriptors(ks, KeysOffset(ks)), Descriptors(ts, ValuesOffset(ks));
    forall j | 1 <= j < |Words(ks, ts)|
      ensures Words(ks, ts)[j] < INT_LIMIT
    {
      if j < 7 {
        assert Words(ks, ts)[j] == h[j];
      } else if j < 7 + |d| {
        assert Words(ks, ts)[j] == d[j - 7];
      } else {
        assert Words(ks, ts)[j] == e[j - 7 - |d|];
      }
    }
    assert Words(ks, ts)[0] == MAGIC;
  }

  ghost predicate IsFileOf(b: Bytes, ks: seq<Bytes>, strings: Strings) {
    && KeysOf(ks, strings)
    && var ts := Translations(ks, strings);
    && Fits(ks, ts) && AllWords(Words(ks, ts))
    && b == Pack(Words(ks, ts)) + Data(ks) + Data(ts)
  }

  // ----- Writing -----

  datatype Descriptor = Descriptor(origOffset: nat, origLen: nat, transOffset: nat, transLen: nat)

  method Describe(ks: seq<Bytes>, strings: Strings) returns (descriptors: seq<Descriptor>, keys: Bytes, values: Bytes)
    requires forall k :: k in ks ==> k in strings
    ensures keys == Data(ks) && values == Data(Translations(ks, strings))
    ensures |descriptors| == |ks|
    ensures var ts := Translations(ks, strings);
      forall j :: 0 <= j < |ks| ==> descriptors[j] == Descriptor(Offset(ks, j), |ks[j]|, Offset(ts, j), |ts[j]|)
  {
    hide Data;
    ghost var ts := Translations(ks, strings);
    NoData();
    descriptors, keys, values := [], [], [];
    for i := 0 to |ks|
      invariant keys == Data(ks[..i]) && values == Data(ts[..i]) && |descriptors| == i
      invariant forall j :: 0 <= j < i ==> descriptors[j] == Descriptor(Offset(ks, j), |ks[j]|, Offset(ts, j), |ts[j]|)
    {
      var original := ks[i];
      var translation := strings[original];
      descriptors := descriptors + [Descriptor(|keys|, |original|, |values|, |translation|)];
      keys := keys + original + [0];
      values := values + translation + [0];
      DataMore(ks, i);
      DataMore(ts, i);
    }
    assert ks[..|ks|] == ks && ts[..|ks|] == ts;
  }

  lemma NoData()
    ensures Data([]) == []
  {
  }

  lemma DataMore(ss: seq<Bytes>, i: nat)
    requires i < |ss|
    ensures Data(ss[..i + 1]) == Data(ss[..i]) + ss[i] + [0]
  {
    assert ss[..i + 1][..i] == ss[..i];
  }

  lemma DescriptorsMore(ss: seq<Bytes>, base: nat, i: nat)
    requires i < |ss|
    ensures Descriptors(ss[..i + 1], base) == Descriptors(ss[..i], base) + [|ss[i]|, base + Offset(ss, i)]
  {
    assert ss[..i + 1][..i] == ss[..i];
  }

  /** Raises if a number does not fit its four bytes. */
  method ConvertStrings(strings: Strings) returns (result: Option<Bytes>, ghost ks: seq<Bytes>)
    ensures KeysOf(ks, strings)
    ensures var ws := Words(ks, Translations(ks, strings));
            result.Some? <==> forall i :: 1 <= i < |ws| ==> ws[i] <= 0x7FFF_FFFF
    ensures result.Some? ==> IsFileOf(result.value, ks, strings)
  {
    hide Data, Descriptors, Less, Pack;
    var originals := SortKeys(strings.Keys);
    ks := originals;
    ghost var ts := Translations(ks, strings);
    var descriptors, keys, values := Describe(originals, strings);
    var keysOffset := 28 + |originals| * 2 * 8;
    var valuesOffset := keysOffset + |keys|;
    var keyDescriptors, valueDescriptors: seq<nat> := [], [];
    NoDescriptors(keysOffset);
    NoDescriptors(valuesOffset);
    for i := 0 to |descriptors|
      invariant keyDescriptors == Descriptors(ks[..i], keysOffset)
      invariant valueDescriptors == Descriptors(ts[..i], valuesOffset)
    {
      var d := descriptors[i];
      DescriptorsMore(ks, keysOffset, i);
      DescriptorsMore(ts, valuesOffset, i);
      keyDescriptors := keyDescriptors + [d.origLen] + [keysOffset + d.origOffset];
      valueDescriptors := valueDescriptors + [d.transLen] + [valuesOffset + d.transOffset];
    }
    assert ks[..|ks|] == ks && ts[..|ts|] == ts;
    var header := [MAGIC, 0, |originals|, 28, 28 + |originals| * 8, 0, 0];
    var words := header + keyDescriptors + valueDescriptors;
    assert words == Words(ks, ts);
    if exists i :: 1 <= i < |words| && words[i] >= INT_LIMIT {
      return None, ks;
    }
    assert AllWords(words);
    PackParts(header, keyDescriptors, valueDescriptors);
    result := Some(Pack(header) + Pack(keyDescriptors) + Pack(valueDescriptors) + keys + values);
  }

  lemma NoDescriptors(base: nat)
    ensures Descriptors([], base) == []
  {
  }

  lemma PackParts(a: seq<nat>, b: seq<nat>, c: seq<nat>)
    requires AllWords(a + b + c)
    ensures AllWords(a) && AllWords(b) && AllWords(c) && Pack(a + b + c) == Pack(a) + Pack(b) + Pack(c)
  {
    hide Pack;
    assert forall i :: 0 <= i < |a| ==> a[i] == (a + b + c)[i];
    assert forall i :: 0 <= i < |b| ==> b[i] == (a + b + c)[|a| + i];
    assert forall i :: 0 <= i < |c| ==> c[i] == (a + b + c)[|a| + |b| + i];
    PackJoins(a, b);
    PackJoins(a + b, c);
  }

  // ----- Reading -----

  predicate IsMo(b: Bytes) {
    |b| >= 28 && WordAt(b, 0) == MAGIC && WordAt(b, 4) == 0
  }

  function Count(b: Bytes): nat
    requires IsMo(b)
  {
    WordAt(b, 8)
  }

  /** The string whose length and offset are the `i`th entry of a table, if all of it is
      within the file, with a NUL behind it. */
  function StringAt(b: Bytes, table: nat, i: nat): Option<Bytes> {
    var at := table + 8 * i;
    if at + 8 > |b| then None
    else
      var length, offset := WordAt(b, at), WordAt(b, at + 4);
      if offset + length >= |b| || b[offset + length] != 0 then None else Some(b[offset..offset + length])
  }

  function Original(b: Bytes, i: nat): Option<Bytes>
    requires IsMo(b)
  {
    StringAt(b, WordAt(b, 12), i)
  }

  function Translation(b: Bytes, i: nat): Option<Bytes>
    requires IsMo(b)
  {
    StringAt(b, WordAt(b, 16), i)
  }

  /** The first `n` entries of a file. */
  function Read(b: Bytes, n: nat): Option<Strings>
    requires IsMo(b)
  {
    if n == 0 then Some(map[])
    else
      var rest, original, translation := Read(b, n - 1), Original(b, n - 1), Translation(b, n - 1);
      if rest.None? || original.None? || translation.None? then None
      else Some(rest.value[original.value := translation.value])
  }

  /** Compares strings from their `i`th bytes on: below, at or above zero as the first byte that
      differs, or the end of one of them, says. */
  function Compare(a: Bytes, b: Bytes, i: nat): int
    requires i <= |a| && i <= |b|
    decreases |a| - i
  {
    if i == |a| || i == |b| then |a| - |b|
    else if a[i] != b[i] then a[i] - b[i]
    else Compare(a, b, i + 1)
  }

  lemma {:induction false} CompareIs(a: Bytes, b: Bytes, i: nat)
    requires i <= |a| && i <= |b| && a[..i] == b[..i]
    ensures Compare(a, b, i) == 0 <==> a == b
    ensures Compare(a, b, i) < 0 <==> Less(a, b)
    decreases |a| - i
  {
    if i < |a| && i < |b| && a[i] == b[i] {
      CompareIs(a, b, i + 1);
    } else {
      forall j: nat | DecidedAt(a, b, j) ensures j == i {
        FirstDifference(a, b, i, j);
      }
      assert DecidedAt(a, b, i) <==> Compare(a, b, i) < 0;
      assert i == |a| == |b| ==> a == a[..i] && b == b[..i];
    }
  }

  lemma FirstDifference(a: Bytes, b: Bytes, i: nat, j: nat)
    requires i <= |a| && i <= |b| && a[..i] == b[..i] && (i < |a| && i < |b| ==> a[i] != b[i])
    requires DecidedAt(a, b, j)
    ensures j == i
  {
    assert forall q :: 0 <= q < i ==> a[..i][q] == b[..i][q];
    assert forall q :: 0 <= q < j ==> a[..j][q] == b[..j][q];
  }

  /** Binary search between `lo` and `hi`, as gettext looks a string up. */
  function Search(b: Bytes, key: Bytes, lo: nat, hi: nat): Option<Bytes>
    requires IsMo(b)
    decreases hi - lo
  {
    if lo >= hi then None
    else
      var mid := (lo + hi) / 2;
      var original := Original(b, mid);
      if original.None? then None
      else
        var c := Compare(key, original.value, 0);
        if c == 0 then Translation(b, mid)
        else if c < 0 then Search(b, key, lo, mid)
        else Search(b, key, mid + 1, hi)
  }

  lemma FileWords(b: Bytes, ks: seq<Bytes>, strings: Strings, j: nat)
    requires IsFileOf(b, ks, strings) && j < |Words(ks, Translations(ks, strings))|
    ensures 4 * j + 4 <= |b| && WordAt(b, 4 * j) == Words(ks, Translations(ks, strings))[j]
  {
    hide Pack, Data, Descriptors, Less, WordAt, Fits;
    var ws := Words(ks, Translations(ks, strings));
    PackAt(ws, j);
    assert b[4 * j..4 * j + 4] == Pack(ws)[4 * j..4 * j + 4];
    WordIs(b, 4 * j, ws[j]);
  }

  /** The magic number, its low byte first, and revision zero. */
  lemma HeaderBytes(b: Bytes, ks: seq<Bytes>, strings: Strings)
    requires IsFileOf(b, ks, strings)
    ensures |b| >= 28 && b[..4] == [0xDE, 0x12, 0x04, 0x95] && b[4..8] == [0, 0, 0, 0]
  {
    hide Data, Descriptors, Pack, Fits;
    var ws := Words(ks, Translations(ks, strings));
    PackAt(ws, 0);
    PackAt(ws, 1);
    assert b[..28] == Pack(ws)[..28];
    assert b[..4] == Pack(ws)[4 * 0..4 * 0 + 4] == Word(MAGIC);
    assert b[4..8] == Pack(ws)[4 * 1..4 * 1 + 4] == Word(0);
  }

  /** The rest of the header: the number of strings, where the two tables are, and no hashing
      table. */
  lemma FileHeader(b: Bytes, ks: seq<Bytes>, strings: Strings)
    requires IsFileOf(b, ks, strings)
    ensures IsMo(b) && Count(b) == |ks| && WordAt(b, 12) == 28 && WordAt(b, 16) == 28 + 8 * |ks|
    ensures WordAt(b, 8) == |ks| && WordAt(b, 20) == 0 && WordAt(b, 24) == 0
  {
    hide IsFileOf, WordAt, Descriptors, Data;
    FileWords(b, ks, strings, 0);
    FileWords(b, ks, strings, 1);
    FileWords(b, ks, strings, 2);
    FileWords(b, ks, strings, 3);
    FileWords(b, ks, strings, 4);
    FileWords(b, ks, strings, 5);
    FileWords(b, ks, strings, 6);
  }

  lemma DescriptorWords(ks: seq<Bytes>, ts: seq<Bytes>, i: nat)
    requires |ks| == |ts| && i < |ks|
    ensures var n, w := |ks|, Words(ks, ts);
      && |w| == 7 + 4 * n
      && w[7 + 2 * i] == |ks[i]| && w[8 + 2 * i] == KeysOffset(ks) + Offset(ks, i)
      && w[7 + 2 * n + 2 * i] == |ts[i]| && w[8 + 2 * n + 2 * i] == ValuesOffset(ks) + Offset(ts, i)
  {
    hide Descriptors, Data;
    DescriptorsAt(ks, KeysOffset(ks), i);
    DescriptorsAt(ts, ValuesOffset(ks), i);
  }

  /** Where the strings are: behind the header and the tables, originals before translations,
      none over another. */
  lemma Regions(b: Bytes, ks: seq<Bytes>, strings: Strings, i: nat)
    requires IsFileOf(b, ks, strings) && i < |ks|
    ensures var ts := Translations(ks, strings);
      var k, t := KeysOffset(ks) + Offset(ks, i), ValuesOffset(ks) + Offset(ts, i);
      && 28 + 16 * |ks| <= k && k + |ks[i]| < ValuesOffset(ks) <= t && t + |ts[i]| < |b|
      && b[k..k + |ks[i]|] == ks[i] && b[k + |ks[i]|] == 0
      && b[t..t + |ts[i]|] == ts[i] && b[t + |ts[i]|] == 0
      && k + |ks[i]| + 1 == KeysOffset(ks) + Offset(ks, i + 1)
      && t + |ts[i]| + 1 == ValuesOffset(ks) + Offset(ts, i + 1)
  {
    hide Pack, Data, Descriptors, Less, Fits;
    var ts := Translations(ks, strings);
    DescriptorWords(ks, ts, i);
    DataAt(ks, i);
    DataAt(ts, i);
    var w := Pack(Words(ks, ts));
    Slices(w, Data(ks), Data(ts), Offset(ks, i), |ks[i]|);
    SlicesLast(w + Data(ks), Data(ts), Offset(ts, i), |ts[i]|);
  }

  lemma Slices(w: Bytes, x: Bytes, y: Bytes, at: nat, n: nat)
    requires at + n < |x|
    ensures (w + x + y)[|w| + at..|w| + at + n] == x[at..at + n] && (w + x + y)[|w| + at + n] == x[at + n]
  {
  }

  lemma SlicesLast(w: Bytes, y: Bytes, at: nat, n: nat)
    requires at + n < |y|
    ensures (w + y)[|w| + at..|w| + at + n] == y[at..at + n] && (w + y)[|w| + at + n] == y[at + n]
  {
  }

  /** Every entry of the tables reads as its original and its translation. */
  lemma EntryReads(b: Bytes, ks: seq<Bytes>, strings: Strings, i: nat)
    requires IsFileOf(b, ks, strings) && i < |ks|
    ensures IsMo(b) && Original(b, i) == Some(ks[i]) && Translation(b, i) == Some(strings[ks[i]])
  {
    hide IsFileOf, WordAt, Words, Offset, Data;
    FileHeader(b, ks, strings);
    var n := |ks|;
    var ts := KnownTranslations(b, ks, strings);
    DescriptorWords(ks, ts, i);
    FileWords(b, ks, strings, 7 + 2 * i);
    FileWords(b, ks, strings, 8 + 2 * i);
    FileWords(b, ks, strings, 7 + 2 * n + 2 * i);
    FileWords(b, ks, strings, 8 + 2 * n + 2 * i);
    Regions(b, ks, strings, i);
  }

  lemma KnownTranslations(b: Bytes, ks: seq<Bytes>, strings: Strings) returns (ts: seq<Bytes>)
    requires IsFileOf(b, ks, strings)
    ensures (forall k :: k in ks ==> k in strings) && ts == Translations(ks, strings)
  {
    ts := Translations(ks, strings);
  }

  /** The first entries of the sorted table. */
  function Entries(ks: seq<Bytes>, strings: Strings): Strings {
    map k | k in ks && k in strings :: strings[k]
  }

  lemma OneMoreEntry(ks: seq<Bytes>, strings: Strings, n: nat)
    requires n < |ks| && ks[n] in strings
    ensures Entries(ks[..n + 1], strings) == Entries(ks[..n], strings)[ks[n] := strings[ks[n]]]
  {
    assert ks[..n + 1] == ks[..n] + [ks[n]];
  }

  lemma AllEntries(ks: seq<Bytes>, strings: Strings)
    requires KeysOf(ks, strings)
    ensures Entries(ks, strings) == strings
  {
  }

  lemma {:induction false} FirstEntriesRead(b: Bytes, ks: seq<Bytes>, strings: Strings, n: nat)
    requires IsFileOf(b, ks, strings) && n <= |ks|
    ensures IsMo(b) && Read(b, n) == Some(Entries(ks[..n], strings))
  {
    hide IsFileOf, Original, Translation, IsMo, Entries;
    FileHeader(b, ks, strings);
    if n > 0 {
      FirstEntriesRead(b, ks, strings, n - 1);
      EntryReads(b, ks, strings, n - 1);
      var _ := KnownTranslations(b, ks, strings);
      assert ks[n - 1] in ks;
      OneMoreEntry(ks, strings, n - 1);
    } else {
      NoEntries(ks, strings);
    }
  }

  lemma NoEntries(ks: seq<Bytes>, strings: Strings)
    ensures Entries(ks[..0], strings) == map[]
  {
  }

  /** A reader gets back exactly the strings that were written. */
  lemma ReadingUndoesWriting(b: Bytes, ks: seq<Bytes>, strings: Strings)
    requires IsFileOf(b, ks, strings)
    ensures IsMo(b) && Read(b, Count(b)) == Some(strings)
  {
    hide Read, IsMo, Count, Entries, Fits, Words, Pack, Data;
    FileHeader(b, ks, strings);
    FirstEntriesRead(b, ks, strings, |ks|);
    assert ks[..|ks|] == ks;
    AllEntries(ks, strings);
  }

  lemma {:induction false} SearchFinds(b: Bytes, ks: seq<Bytes>, strings: Strings, key: Bytes, lo: nat, hi: nat)
    requires IsFileOf(b, ks, strings) && lo <= hi <= |ks|
    requires forall i :: 0 <= i < |ks| && ks[i] == key ==> lo <= i < hi
    ensures IsMo(b) && Search(b, key, lo, hi) == if key in strings then Some(strings[key]) else None
    decreases hi - lo
  {
    hide Original, Translation, IsMo, Compare, Less, Pack, Words, Fits, Data;
    FileHeader(b, ks, strings);
    if lo < hi {
      var mid := (lo + hi) / 2;
      EntryReads(b, ks, strings, mid);
      CompareIs(key, ks[mid], 0);
      if key != ks[mid] {
        LessIsTotal(key, ks[mid]);
        if Less(key, ks[mid]) {
          forall i | 0 <= i < |ks| && ks[i] == key
            ensures i < mid
          {
            LessIsTotal(key, key);
          }
          SearchFinds(b, ks, strings, key, lo, mid);
        } else {
          SearchFinds(b, ks, strings, key, mid + 1, hi);
        }
      }
    }
  }

  /** Because the originals are sorted, binary search finds exactly what was written. */
  lemma LookupFindsExactly(b: Bytes, ks: seq<Bytes>, strings: Strings, key: Bytes)
    requires IsFileOf(b, ks, strings)
    ensures IsMo(b) && Search(b, key, 0, Count(b)) == if key in strings then Some(strings[key]) else None
  {
    hide Search, IsMo, IsFileOf, Count;
    FileHeader(b, ks, strings);
    SearchFinds(b, ks, strings, key, 0, |ks|);
  }
}
