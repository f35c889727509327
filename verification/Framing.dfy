/**
 * The byte stream over which a source tree is digested: one frame per listed path, holding the
 * path, what was found there and its content, each behind a big-endian length. The hash itself is
 * left out; what is proved is that the stream it is fed determines the tree.
 */
module Framing {
  import opened Common

  type Byte = b: int | 0 <= b < 256
  type Bytes = seq<Byte>

  /** What the file system holds at a path; a path without an entry is missing. */
  datatype Entry = Symlink(target: Bytes) | File(content: Bytes) | Other
  type Tree = map<Bytes, Entry>

  datatype Kind = SymlinkKind | FileKind | MissingKind
  datatype Record = Record(path: Bytes, kind: Kind, content: Bytes)

  /** The widths of the three length prefixes. */
  datatype Layout = Layout(path: nat, kind: nat, content: nat)

  const SOURCE_LAYOUT := Layout(8, 1, 8)

  // ---- numbers ----

  /** 256 to the power `width`: how many numbers fit. */
  function Capacity(width: nat): nat {
    if width == 0 then 1 else 256 * Capacity(width - 1)
  }

  function BigEndian(n: nat, width: nat): (bytes: Bytes)
    ensures |bytes| == width
  {
    if width == 0 then [] else BigEndian(n / 256, width - 1) + [n % 256]
  }

  function FromBigEndian(bytes: Bytes): nat {
    if bytes == [] then 0 else 256 * FromBigEndian(bytes[..|bytes| - 1]) + bytes[|bytes| - 1]
  }

  lemma {:induction false} NumberRoundTrip(n: nat, width: nat)
    requires n < Capacity(width)
    ensures FromBigEndian(BigEndian(n, width)) == n
  {
    if width > 0 {
      NumberRoundTrip(n / 256, width - 1);
      assert BigEndian(n, width)[..width - 1] == BigEndian(n / 256, width - 1);
    }
  }

  lemma {:induction false} BytesRoundTrip(bytes: Bytes)
    ensures FromBigEndian(bytes) < Capacity(|bytes|)
    ensures BigEndian(FromBigEndian(bytes), |bytes|) == bytes
  {
    if bytes != [] {
      BytesRoundTrip(bytes[..|bytes| - 1]);
    }
  }

  // ---- length-prefixed fields ----

  function Field(width: nat, data: Bytes): Bytes {
    BigEndian(|data|, width) + data
  }

  datatype Parsed<T> = Parsed(value: T, rest: Bytes)

  function TakeField(width: nat, bytes: Bytes): Option<Parsed<Bytes>> {
    if |bytes| < width then None else
      var n := FromBigEndian(bytes[..width]);
      if |bytes| - width < n then None else Some(Parsed(bytes[width..width + n], bytes[width + n..]))
  }

  lemma FieldRoundTrip(width: nat, data: Bytes, rest: Bytes)
    requires |data| < Capacity(width)
    ensures TakeField(width, Field(width, data) + rest) == Some(Parsed(data, rest))
  {
    NumberRoundTrip(|data|, width);
    assert (Field(width, data) + rest)[..width] == BigEndian(|data|, width);
  }

  lemma TakenFieldIsField(width: nat, bytes: Bytes)
    requires TakeField(width, bytes).Some?
    ensures var taken := TakeField(width, bytes).value;
      |taken.value| < Capacity(width) && bytes == Field(width, taken.value) + taken.rest
  {
    BytesRoundTrip(bytes[..width]);
  }

  // ---- records ----

  function KindName(kind: Kind): Bytes {
    match kind
    case SymlinkKind => [115, 121, 109, 108, 105, 110, 107]
    case FileKind => [102, 105, 108, 101]
    case MissingKind => [109, 105, 115, 115, 105, 110, 103]
  }

  function KindNamed(name: Bytes): Option<Kind> {
    if name == KindName(SymlinkKind) then Some(SymlinkKind)
    else if name == KindName(FileKind) then Some(FileKind)
    else if name == KindName(MissingKind) then Some(MissingKind)
    else None
  }

  lemma KindRoundTrip(kind: Kind)
    ensures KindNamed(KindName(kind)) == Some(kind) && |KindName(kind)| <= 7
  {
    assert KindName(SymlinkKind)[0] != KindName(FileKind)[0];
    assert KindName(MissingKind)[0] != KindName(FileKind)[0];
    assert KindName(SymlinkKind)[0] != KindName(MissingKind)[0];
  }

  /** The names of the kinds fit their prefix. */
  predicate Roomy(layout: Layout) {
    7 < Capacity(layout.kind)
  }

  lemma SourceLayoutIsRoomy()
    ensures Roomy(SOURCE_LAYOUT)
  {
    assert Capacity(1) == 256 * Capacity(0);
  }

  /** The lengths of a record fit their prefixes; anything longer is an overflow error. */
  predicate Fits(layout: Layout, record: Record) {
    |record.path| < Capacity(layout.path) && |record.content| < Capacity(layout.content)
  }

  function Frame(layout: Layout, record: Record): Bytes {
    Field(layout.path, record.path) + Field(layout.kind, KindName(record.kind)) + Field(layout.content, record.content)
  }

  function TakeFrame(layout: Layout, bytes: Bytes): Option<Parsed<Record>> {
    var path := TakeField(layout.path, bytes);
    if path.None? then None else
      var name := TakeField(layout.kind, path.value.rest);
      if name.None? || KindNamed(name.value.value).None? then None else
        var content := TakeField(layout.content, name.value.rest);
        if content.None? then None else
          var kind := KindNamed(name.value.value).value;
          Some(Parsed(Record(path.value.value, kind, content.value.value), content.value.rest))
  }

  lemma Regroup(a: Bytes, b: Bytes, c: Bytes, rest: Bytes)
    ensures a + b + c + rest == a + (b + (c + rest))
  {
  }

  lemma FrameRoundTrip(layout: Layout, record: Record, rest: Bytes)
    requires Roomy(layout) && Fits(layout, record)
    ensures TakeFrame(layout, Frame(layout, record) + rest) == Some(Parsed(record, rest))
  {
    var path, name, content :=
      Field(layout.path, record.path), Field(layout.kind, KindName(record.kind)), Field(layout.content, record.content);
    Regroup(path, name, content, rest);
    FieldRoundTrip(layout.path, record.path, name + (content + rest));
    KindRoundTrip(record.kind);
    FieldRoundTrip(layout.kind, KindName(record.kind), content + rest);
    FieldRoundTrip(layout.content, record.content, rest);
  }

  lemma TakenFrameIsFrame(layout: Layout, bytes: Bytes)
    requires TakeFrame(layout, bytes).Some?
    ensures var taken := TakeFrame(layout, bytes).value;
      Fits(layout, taken.value) && bytes == Frame(layout, taken.value) + taken.rest
  {
    var path := TakeField(layout.path, bytes).value;
    var name := TakeField(layout.kind, path.rest).value;
    var content := TakeField(layout.content, name.rest).value;
    TakenFieldIsField(layout.path, bytes);
    TakenFieldIsField(layout.kind, path.rest);
    TakenFieldIsField(layout.content, name.rest);
    Regroup(Field(layout.path, path.value), Field(layout.kind, name.value), Field(layout.content, content.value), content.rest);
  }

  lemma FrameIsSomething(layout: Layout, record: Record)
    ensures |Frame(layout, record)| >= |KindName(record.kind)| > 0
  {
  }

  // ---- streams ----

  function Concat(chunks: seq<Bytes>): Bytes {
    if chunks == [] then [] else Concat(chunks[..|chunks| - 1]) + chunks[|chunks| - 1]
  }

  lemma {:induction false} ConcatFromFront(chunks: seq<Bytes>)
    requires chunks != []
    ensures Concat(chunks) == chunks[0] + Concat(chunks[1..])
  {
    var n := |chunks| - 1;
    if n > 0 {
      ConcatFromFront(chunks[..n]);
      assert chunks[..n][1..] == chunks[1..][..n - 1];
    }
  }

  function Frames(layout: Layout, records: seq<Record>): seq<Bytes> {
    seq(|records|, i requires 0 <= i < |records| => Frame(layout, records[i]))
  }

  function Stream(layout: Layout, records: seq<Record>): Bytes {
    Concat(Frames(layout, records))
  }

  lemma StreamFromFront(layout: Layout, records: seq<Record>)
    requires records != []
    ensures Stream(layout, records) == Frame(layout, records[0]) + Stream(layout, records[1..])
  {
    ConcatFromFront(Frames(layout, records));
    assert Frames(layout, records)[1..] == Frames(layout, records[1..]);
  }

  lemma StreamGrows(layout: Layout, records: seq<Record>, record: Record)
    ensures Stream(layout, records + [record]) == Stream(layout, records) + Frame(layout, record)
  {
    assert Frames(layout, records + [record])[..|records|] == Frames(layout, records);
  }

  predicate AllFit(layout: Layout, records: seq<Record>) {
    forall i :: 0 <= i < |records| ==> Fits(layout, records[i])
  }

  /** The records a byte stream holds, if it is a stream of frames at all. */
  function Decode(layout: Layout, bytes: Bytes): Option<seq<Record>>
    decreases |bytes|
  {
    if bytes == [] then Some([]) else
      var first := TakeFrame(layout, bytes);
      if first.None? || |first.value.rest| >= |bytes| then None else
        var others := Decode(layout, first.value.rest);
        if others.None? then None else Some([first.value.value] + others.value)
  }

  lemma DecodeFirst(layout: Layout, record: Record, rest: Bytes)
    requires Roomy(layout) && Fits(layout, record) && Decode(layout, rest).Some?
    ensures Decode(layout, Frame(layout, record) + rest) == Some([record] + Decode(layout, rest).value)
  {
    FrameRoundTrip(layout, record, rest);
    FrameIsSomething(layout, record);
  }

  lemma StreamStep(layout: Layout, records: seq<Record>)
    requires records != [] && Roomy(layout) && AllFit(layout, records)
    requires Decode(layout, Stream(layout, records[1..])) == Some(records[1..])
    ensures Decode(layout, Stream(layout, records)) == Some(records)
  {
    assert records == [records[0]] + records[1..];
    var rest := Stream(layout, records[1..]);
    StreamFromFront(layout, records);
    DecodeFirst(layout, records[0], rest);
  }

  /** Decoding inverts encoding. */
  lemma {:induction false} StreamRoundTrip(layout: Layout, records: seq<Record>)
    requires Roomy(layout) && AllFit(layout, records)
    ensures Decode(layout, Stream(layout, records)) == Some(records)
    decreases |records|
  {
    if records == [] {
      assert Stream(layout, records) == [];
    } else {
      StreamRoundTrip(layout, records[1..]);
      StreamStep(layout, records);
    }
  }

  /** Only encodings decode, and to the records they encode. */
  lemma {:induction false} OnlyStreamsDecode(layout: Layout, bytes: Bytes)
    requires Decode(layout, bytes).Some?
    ensures AllFit(layout, Decode(layout, bytes).value)
    ensures Stream(layout, Decode(layout, bytes).value) == bytes
    decreases |bytes|
  {
    if bytes != [] {
      var first := TakeFrame(layout, bytes).value;
      TakenFrameIsFrame(layout, bytes);
      OnlyStreamsDecode(layout, first.rest);
      StreamFromFront(layout, Decode(layout, bytes).value);
      assert Decode(layout, bytes).value[1..] == Decode(layout, first.rest).value;
    }
  }

  lemma StreamDeterminesRecords(layout: Layout, a: seq<Record>, b: seq<Record>)
    requires Roomy(layout) && AllFit(layout, a) && AllFit(layout, b)
    ensures Stream(layout, a) == Stream(layout, b) <==> a == b
  {
    StreamRoundTrip(layout, a);
    StreamRoundTrip(layout, b);
  }

  // ---- trees ----

  /** The parts of a path, between its slashes. */
  function Parts(path: Bytes): (parts: seq<Bytes>)
    ensures parts != []
  {
    if path == [] then [[]] else
      var before := Parts(path[..|path| - 1]);
      var last := path[|path| - 1];
      if last == 47 then before + [[]] else before[|before| - 1 := before[|before| - 1] + [last]]
  }

  /** An absolute path, or one with a part that climbs. */
  predicate Outside(path: Bytes) {
    (path != [] && path[0] == 47) || [46, 46] in Parts(path)
  }

  function Look(path: Bytes, tree: Tree): Record {
    if path !in tree || tree[path].Other? then Record(path, MissingKind, [])
    else if tree[path].Symlink? then Record(path, SymlinkKind, tree[path].target)
    else Record(path, FileKind, tree[path].content)
  }

  predicate Digestible(layout: Layout, path: Bytes, tree: Tree) {
    !Outside(path) && (path in tree ==> !tree[path].Other?) && Fits(layout, Look(path, tree))
  }

  function LookAll(paths: seq<Bytes>, tree: Tree): seq<Record> {
    seq(|paths|, i requires 0 <= i < |paths| => Look(paths[i], tree))
  }

  predicate AllDigestible(layout: Layout, paths: seq<Bytes>, tree: Tree) {
    forall i :: 0 <= i < |paths| ==> Digestible(layout, paths[i], tree)
  }

  /** What is found at one path; `None` is an error. */
  method Inspect(layout: Layout, path: Bytes, tree: Tree) returns (found: Option<Record>)
    ensures found == if Digestible(layout, path, tree) then Some(Look(path, tree)) else None
  {
    if Outside(path) {
      return None;
    }
    var record: Record;
    if path in tree && tree[path].Symlink? {
      record := Record(path, SymlinkKind, tree[path].target);
    } else if path in tree && tree[path].File? {
      record := Record(path, FileKind, tree[path].content);
    } else if path !in tree {
      record := Record(path, MissingKind, []);
    } else {
      return None;
    }
    if |record.path| >= Capacity(layout.path) || |record.content| >= Capacity(layout.content) {
      return None;
    }
    return Some(record);
  }

  lemma FeedGrows(layout: Layout, paths: seq<Bytes>, tree: Tree, domain: Bytes, i: nat)
    requires i < |paths|
    ensures domain + Stream(layout, LookAll(paths[..i + 1], tree)) ==
      domain + Stream(layout, LookAll(paths[..i], tree)) + Frame(layout, Look(paths[i], tree))
  {
    StreamGrows(layout, LookAll(paths[..i], tree), Look(paths[i], tree));
    assert LookAll(paths[..i + 1], tree) == LookAll(paths[..i], tree) + [Look(paths[i], tree)];
  }

  /** Feed the digest path by path; `None` is an error raised on the way. */
  method FeedDigest(layout: Layout, paths: seq<Bytes>, tree: Tree, domain: Bytes) returns (fed: Option<Bytes>)
    ensures fed ==
      if AllDigestible(layout, paths, tree) then Some(domain + Stream(layout, LookAll(paths, tree))) else None
  {
    var stream := domain;
    for i := 0 to |paths|
      invariant forall k :: 0 <= k < i ==> Digestible(layout, paths[k], tree)
      invariant stream == domain + Stream(layout, LookAll(paths[..i], tree))
    {
      var found := Inspect(layout, paths[i], tree);
      if found.None? {
        return None;
      }
      FeedGrows(layout, paths, tree, domain, i);
      stream := stream + Frame(layout, found.value);
    }
    assert paths[..|paths|] == paths;
    return Some(stream);
  }

  /** The two trees hold the same thing at a path. */
  predicate SameAt(path: Bytes, a: Tree, b: Tree) {
    (path in a <==> path in b) && (path in a && path in b ==> a[path] == b[path])
  }

  lemma SameAtIsSameLook(layout: Layout, path: Bytes, a: Tree, b: Tree)
    requires Digestible(layout, path, a) && Digestible(layout, path, b)
    ensures Look(path, a) == Look(path, b) <==> SameAt(path, a, b)
  {
  }

  lemma LooksDetermineTree(layout: Layout, paths: seq<Bytes>, tree: Tree, others: seq<Bytes>, other: Tree)
    requires AllDigestible(layout, paths, tree) && AllDigestible(layout, others, other)
    ensures LookAll(paths, tree) == LookAll(others, other) <==>
      paths == others && forall i :: 0 <= i < |paths| ==> SameAt(paths[i], tree, other)
  {
    var a, b := LookAll(paths, tree), LookAll(others, other);
    if a == b {
      assert |a| == |paths| && |b| == |others|;
      forall i | 0 <= i < |paths| ensures paths[i] == others[i] && SameAt(paths[i], tree, other) {
        assert a[i].path == paths[i] && b[i].path == others[i];
        SameAtIsSameLook(layout, paths[i], tree, other);
      }
    } else if paths == others && forall i :: 0 <= i < |paths| ==> SameAt(paths[i], tree, other) {
      forall i | 0 <= i < |paths| ensures a[i] == b[i] {
        SameAtIsSameLook(layout, paths[i], tree, other);
      }
    }
  }

  lemma SamePrefix(domain: Bytes, a: Bytes, b: Bytes)
    ensures domain + a == domain + b <==> a == b
  {
    assert a == (domain + a)[|domain|..] && b == (domain + b)[|domain|..];
  }

  /** Equal streams under one domain come from the same paths, in the same order, holding the same things. */
  lemma StreamDeterminesTree(paths: seq<Bytes>, tree: Tree, others: seq<Bytes>, other: Tree, domain: Bytes)
    requires AllDigestible(SOURCE_LAYOUT, paths, tree) && AllDigestible(SOURCE_LAYOUT, others, other)
    ensures domain + Stream(SOURCE_LAYOUT, LookAll(paths, tree)) == domain + Stream(SOURCE_LAYOUT, LookAll(others, other)) <==>
      paths == others && forall i :: 0 <= i < |paths| ==> SameAt(paths[i], tree, other)
  {
    SourceLayoutIsRoomy();
    StreamDecidesTree(SOURCE_LAYOUT, paths, tree, others, other, domain);
  }

  lemma StreamDecidesTree(layout: Layout, paths: seq<Bytes>, tree: Tree, others: seq<Bytes>, other: Tree, domain: Bytes)
    requires Roomy(layout) && AllDigestible(layout, paths, tree) && AllDigestible(layout, others, other)
    ensures domain + Stream(layout, LookAll(paths, tree)) == domain + Stream(layout, LookAll(others, other)) <==>
      paths == others && forall i :: 0 <= i < |paths| ==> SameAt(paths[i], tree, other)
  {
    var a, b := LookAll(paths, tree), LookAll(others, other);
    StreamDeterminesRecords(layout, a, b);
    LooksDetermineTree(layout, paths, tree, others, other);
    SamePrefix(domain, Stream(layout, a), Stream(layout, b));
  }

  // ---- the bytes, spelled out ----

  lemma {:induction false} CapacityPositive(width: nat)
    ensures Capacity(width) > 0
  {
    if width > 0 {
      CapacityPositive(width - 1);
    }
  }

  /** The digit of `n` at place `k`, counted from the right, to the base 256. */
  function Digit(n: nat, k: nat): Byte {
    CapacityPositive(k);
    (n / Capacity(k)) % 256
  }

  /** A length in eight bytes, the highest first. */
  function Eight(n: nat): Bytes {
    seq(8, i requires 0 <= i < 8 => Digit(n, 7 - i))
  }

  function Ascii(text: string): Bytes
    requires forall i :: 0 <= i < |text| ==> text[i] < 128 as char
  {
    seq(|text|, i requires 0 <= i < |text| => text[i] as int)
  }

  lemma Division(n: nat, d: nat)
    requires d > 0
    ensures d * (n / d) + n % d == n && n % d < d
  {
  }

  lemma AtLeastOnce(d: nat, p: nat, q: nat)
    requires p < q
    ensures d * p + d <= d * q
  {
    assert d * (p + 1) <= d * q;
  }

  lemma SameQuotient(d: nat, p: nat, e: nat, q: nat, r: nat)
    requires d * p + e == d * q + r && e < d && r < d
    ensures p == q
  {
    if p < q {
      AtLeastOnce(d, p, q);
    }
    if q < p {
      AtLeastOnce(d, q, p);
    }
  }

  lemma Assembled(m: nat, r: nat, b: nat, q: nat, s: nat, d: nat)
    requires m == b * q + s && s < b && r < 256 && d == 256 * b
    ensures d * q + (256 * s + r) == 256 * m + r && 256 * s + r < d
  {
    assert d * q == 256 * (b * q);
  }

  lemma QuotientIs(n: nat, d: nat, q: nat, r: nat)
    requires n == d * q + r && r < d
    ensures n / d == q
  {
    Division(n, d);
    SameQuotient(d, n / d, n % d, q, r);
  }

  lemma QuotientInTwo(n: nat, m: nat, r: nat, b: nat, q: nat, s: nat, d: nat)
    requires n == 256 * m + r && r < 256 && m == b * q + s && s < b && d == 256 * b
    ensures n / d == q
  {
    Assembled(m, r, b, q, s, d);
    QuotientIs(n, d, q, 256 * s + r);
  }

  lemma DivideTwice(n: nat, b: nat, d: nat)
    requires b > 0 && d == 256 * b
    ensures (n / 256) / b == n / d
  {
    Division(n / 256, b);
    QuotientInTwo(n, n / 256, n % 256, b, (n / 256) / b, (n / 256) % b, d);
  }

  /** Byte `i` of a big-endian number is its digit at that place. */
  lemma {:induction false} BigEndianAt(n: nat, width: nat, i: nat)
    requires i < width
    ensures BigEndian(n, width)[i] == Digit(n, width - 1 - i)
    decreases width
  {
    if i < width - 1 {
      BigEndianAt(n / 256, width - 1, i);
      CapacityPositive(width - 2 - i);
      DivideTwice(n, Capacity(width - 2 - i), Capacity(width - 1 - i));
    } else {
      assert Capacity(0) == 1;
    }
  }

  lemma EightIsBigEndian(n: nat)
    ensures BigEndian(n, 8) == Eight(n)
  {
    forall i | 0 <= i < 8 ensures BigEndian(n, 8)[i] == Eight(n)[i] {
      BigEndianAt(n, 8, i);
    }
  }

  lemma OneByte(n: nat)
    requires n < 256
    ensures BigEndian(n, 1) == [n]
  {
    assert BigEndian(n / 256, 0) == [];
  }

  /** What the source writes for a path: its length and bytes, the kind and its length, the content and its length. */
  function Written(path: Bytes, tree: Tree): Bytes {
    Eight(|path|) + path +
    if path !in tree || tree[path].Other? then [7] + Ascii("missing") + Eight(0)
    else match tree[path]
      case Symlink(target) => [7] + Ascii("symlink") + Eight(|target|) + target
      case File(content) => [4] + Ascii("file") + Eight(|content|) + content
      case Other => []
  }

  lemma NamesAreWritten()
    ensures KindName(FileKind) == Ascii("file")
    ensures KindName(SymlinkKind) == Ascii("symlink")
    ensures KindName(MissingKind) == Ascii("missing")
  {
  }

  lemma FrameIsWritten(path: Bytes, tree: Tree)
    ensures Frame(SOURCE_LAYOUT, Look(path, tree)) == Written(path, tree)
  {
    var record := Look(path, tree);
    var name := KindName(record.kind);
    NamesAreWritten();
    EightIsBigEndian(|path|);
    EightIsBigEndian(|record.content|);
    OneByte(|name|);
    assert Frame(SOURCE_LAYOUT, record) == Eight(|path|) + path + ([|name|] + name + Eight(|record.content|) + record.content);
  }

  function WrittenAll(paths: seq<Bytes>, tree: Tree): seq<Bytes> {
    seq(|paths|, i requires 0 <= i < |paths| => Written(paths[i], tree))
  }

  /** Every path, byte for byte: the stream the digest is fed is what the source writes, path after path. */
  lemma StreamIsWritten(paths: seq<Bytes>, tree: Tree)
    ensures Stream(SOURCE_LAYOUT, LookAll(paths, tree)) == Concat(WrittenAll(paths, tree))
  {
    var frames := Frames(SOURCE_LAYOUT, LookAll(paths, tree));
    forall i | 0 <= i < |paths| ensures frames[i] == WrittenAll(paths, tree)[i] {
      FrameIsWritten(paths[i], tree);
    }
    assert frames == WrittenAll(paths, tree);
  }

  // ---- paths that leave the repository ----

  /** The bytes from `i` to `j` stand between slashes or the ends of the path, and hold none. */
  predicate Segment(path: Bytes, i: nat, j: nat) {
    && i <= j <= |path|
    && (i == 0 || path[i - 1] == 47)
    && (j == |path| || path[j] == 47)
    && (forall k :: i <= k < j ==> path[k] != 47)
  }

  ghost predicate HasSegment(path: Bytes, part: Bytes, limit: nat) {
    exists i: nat, j: nat :: Segment(path, i, j) && j < limit && path[i..j] == part
  }

  /** Where the last segment starts. */
  function LastStart(path: Bytes): (i: nat)
    ensures Segment(path, i, |path|)
    ensures forall k: nat :: Segment(path, k, |path|) ==> k == i
  {
    if path == [] then 0
    else if path[|path| - 1] == 47 then |path|
    else
      var front := path[..|path| - 1];
      var i := LastStart(front);
      assert forall k: nat :: Segment(path, k, |path|) ==> Segment(front, k, |front|) by {
        forall k: nat | Segment(path, k, |path|) ensures Segment(front, k, |front|) {
          LastSegmentShrinks(path, k);
        }
      }
      i
  }

  lemma LastSegmentShrinks(path: Bytes, k: nat)
    requires path != [] && path[|path| - 1] != 47 && Segment(path, k, |path|)
    ensures Segment(path[..|path| - 1], k, |path| - 1)
  {
    assert k < |path|;
  }

  /** Segments that end before the end do not see a byte that is appended, nor one that is a slash. */
  lemma EarlierSegments(path: Bytes, i: nat, j: nat)
    requires path != [] && j < |path| - 1
    ensures Segment(path, i, j) <==> Segment(path[..|path| - 1], i, j)
    ensures i <= j ==> path[..|path| - 1][i..j] == path[i..j]
  {
  }

  /** The parts of a path are its segments; the last part is the last segment. */
  lemma {:induction false} PartsAreSegments(path: Bytes, part: Bytes)
    ensures var parts := Parts(path);
      && parts[|parts| - 1] == path[LastStart(path)..]
      && (part in parts[..|parts| - 1] <==> HasSegment(path, part, |path|))
    decreases |path|
  {
    if path != [] {
      var n := |path| - 1;
      PartsAreSegments(path[..n], part);
      if path[n] == 47 {
        SlashAdds(path, part);
      } else {
        ByteExtends(path, part);
      }
    }
  }

  lemma SlashAdds(path: Bytes, part: Bytes)
    requires path != [] && path[|path| - 1] == 47
    ensures var front := path[..|path| - 1];
      HasSegment(path, part, |path|) <==> HasSegment(front, part, |front|) || part == front[LastStart(front)..]
  {
    var n := |path| - 1;
    var front := path[..n];
    var start := LastStart(front);
    assert Segment(path, start, n) && path[start..n] == front[start..];
    forall i: nat, j: nat | Segment(path, i, j) && j < |path|
      ensures j < n ==> Segment(front, i, j) && front[i..j] == path[i..j]
      ensures j == n ==> i == start
    {
      if j < n {
        EarlierSegments(path, i, j);
      } else {
        assert Segment(front, i, |front|);
      }
    }
    forall i: nat, j: nat | Segment(front, i, j) && j < n ensures Segment(path, i, j) && front[i..j] == path[i..j] {
      EarlierSegments(path, i, j);
    }
  }

  lemma ByteExtends(path: Bytes, part: Bytes)
    requires path != [] && path[|path| - 1] != 47
    ensures var front := path[..|path| - 1];
      && (HasSegment(path, part, |path|) <==> HasSegment(front, part, |front|))
      && path[LastStart(path)..] == front[LastStart(front)..] + [path[|path| - 1]]
  {
    var n := |path| - 1;
    var front := path[..n];
    forall i: nat, j: nat | Segment(path, i, j) && j < |path| ensures j < n && Segment(front, i, j) && front[i..j] == path[i..j] {
      EarlierSegments(path, i, j);
    }
    forall i: nat, j: nat | Segment(front, i, j) && j < n ensures Segment(path, i, j) && front[i..j] == path[i..j] {
      EarlierSegments(path, i, j);
    }
  }

  /** Two dots that stand alone between slashes or the ends of the path. */
  predicate ClimbsAt(path: Bytes, i: nat) {
    && i + 2 <= |path| && path[i] == 46 && path[i + 1] == 46
    && (i == 0 || path[i - 1] == 47)
    && (i + 2 == |path| || path[i + 2] == 47)
  }

  /** A path is refused exactly when it starts with a slash or climbs somewhere. */
  lemma OutsideExactlyWhen(path: Bytes)
    ensures Outside(path) <==> (path != [] && path[0] == 47) || exists i: nat :: ClimbsAt(path, i)
  {
    var dots: Bytes := [46, 46];
    var parts := Parts(path);
    PartsAreSegments(path, dots);
    assert parts == parts[..|parts| - 1] + [parts[|parts| - 1]];
    if i: nat :| ClimbsAt(path, i) {
      assert path[i..i + 2] == dots && Segment(path, i, i + 2);
      if i + 2 == |path| {
        assert i == LastStart(path) && path[i..] == dots;
      }
      assert dots in parts;
    }
    if dots in parts {
      DotsClimb(path);
    }
  }

  lemma DotsClimb(path: Bytes)
    requires HasSegment(path, [46, 46], |path|) || path[LastStart(path)..] == [46, 46]
    ensures exists i: nat :: ClimbsAt(path, i)
  {
    if HasSegment(path, [46, 46], |path|) {
      var i: nat, j: nat :| Segment(path, i, j) && j < |path| && path[i..j] == [46, 46];
      assert path[i] == path[i..j][0] && path[i + 1] == path[i..j][1] && j == i + 2;
      assert ClimbsAt(path, i);
    } else {
      var i := LastStart(path);
      assert path[i] == path[i..][0] && path[i + 1] == path[i..][1] && |path| == i + 2;
      assert ClimbsAt(path, i);
    }
  }
}
