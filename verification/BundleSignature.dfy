/**
 * The signature block at the end of an MCP bundle, and the ZIP end-of-central-directory record
 * (section 4.3.16 of PKWARE's APPNOTE) before it: taking the block off again, and whether
 * the record accounts for all that follows it.
 */
module BundleSignature {
  import opened ByteStrings
  import opened Numbers
  import opened Search

  /** "MCPB_SIG_V1", "MCPB_SIG_END" and "PK\x05\x06". */
  const HEADER: Bytes := [77, 67, 80, 66, 95, 83, 73, 71, 95, 86, 49]
  const FOOTER: Bytes := [77, 67, 80, 66, 95, 83, 73, 71, 95, 69, 78, 68]
  const EOCD: Bytes := [80, 75, 5, 6]
  const EOCD_SIZE := 22
  const FIELD := 20
  const MAX_COMMENT := 0xffff
  const REACH := EOCD_SIZE + MAX_COMMENT + 1024 * 1024

  // ---- Little-endian numbers ----

  function Word16(n: nat): (b: Bytes)
    requires n <= MAX_COMMENT
    ensures |b| == 2 && Read16(b) == n
  {
    var low: int, high: int := n % 256, n / 256;
    [low, high]
  }

  function Read16(b: Bytes): (n: nat)
    requires |b| == 2
    ensures n <= MAX_COMMENT
  {
    b[0] as int + 256 * b[1] as int
  }

  function Word32(n: nat): (b: Bytes)
    requires n < 0x1_0000_0000
    ensures |b| == 4 && Read32(b) == n
  {
    Word16(n % 65536) + Word16(n / 65536)
  }

  function Read32(b: Bytes): nat
    requires |b| == 4
  {
    Read16(b[..2]) + 65536 * Read16(b[2..])
  }

  /** A two-byte field is its number's word. */
  lemma ReadWord(b: Bytes)
    requires |b| == 2
    ensures Word16(Read16(b)) == b
  {
  }

  // ---- The record ----

  /** The position of the last record in reach that counts, or -1. */
  function LastEocd(data: Bytes): int {
    var eocd := RFind(data, EOCD, Max(0, |data| - REACH), |data|);
    if eocd >= 0 && eocd + EOCD_SIZE <= |data| then eocd else -1
  }

  /** What the record at `eocd` says follows it. */
  function Declared(data: Bytes, eocd: nat): nat
    requires eocd + EOCD_SIZE <= |data|
  {
    Read16(data[eocd + FIELD..eocd + EOCD_SIZE])
  }

  function Redeclare(data: Bytes, eocd: nat, n: nat): (r: Bytes)
    requires eocd + EOCD_SIZE <= |data| && n <= MAX_COMMENT
    ensures |r| == |data|
    ensures forall i :: 0 <= i < |data| && !(eocd + FIELD <= i < eocd + EOCD_SIZE) ==> r[i] == data[i]
    ensures r[eocd + FIELD..eocd + EOCD_SIZE] == Word16(n)
  {
    data[..eocd + FIELD] + Word16(n) + data[eocd + EOCD_SIZE..]
  }

  /** Makes the last record count exactly the bytes that follow it. */
  function Undeclare(content: Bytes): Bytes {
    var eocd := LastEocd(content);
    var comment := |content| - eocd - EOCD_SIZE;
    if eocd < 0 || comment > MAX_COMMENT then content else Redeclare(content, eocd, comment)
  }

  datatype TrailerError = NoRecord | Miscounted(after: nat, declared: nat)

  /** Why a strict reader would refuse the file's end. */
  function TrailerErrors(data: Bytes): Option<TrailerError> {
    var eocd := LastEocd(data);
    if eocd < 0 then Some(NoRecord)
    else
      var declared, after := Declared(data, eocd), |data| - eocd - EOCD_SIZE;
      if declared != after then Some(Miscounted(after, declared)) else None
  }

  // ---- The block ----

  datatype State = Unsigned | Signed | Malformed

  function SplitSignature(data: Bytes): (Bytes, State) {
    if |data| < |FOOTER| || data[|data| - |FOOTER|..] != FOOTER then (data, Unsigned)
    else
      var end := |data| - |FOOTER|;
      var header := RFind(data, HEADER, 0, end);
      var start := header + |HEADER|;
      if header < 0 || start + 4 > end then (data, Malformed)
      else if start + 4 + Read32(data[start..start + 4]) != end then (data, Malformed)
      else (Undeclare(data[..header]), Signed)
  }

  function Block(signature: Bytes): Bytes
    requires |signature| < 0x1_0000_0000
  {
    HEADER + Word32(|signature|) + signature + FOOTER
  }

  // ---- Taking the block off ----

  /** Occurrences of the header do not overlap: its first byte is nowhere else in it. */
  lemma HeadersApart(data: Bytes, i: nat, j: nat)
    requires OccursAt(data, HEADER, i) && OccursAt(data, HEADER, j)
    ensures j <= i || i + |HEADER| <= j
  {
    assert data[j..j + |HEADER|][0] == data[j];
    assert forall m :: i <= m < i + |HEADER| ==> data[m] == data[i..i + |HEADER|][m - i];
  }

  /** Nor do those of the record's magic. */
  lemma RecordsApart(data: Bytes, i: nat, j: nat)
    requires OccursAt(data, EOCD, i) && OccursAt(data, EOCD, j)
    ensures j <= i || i + |EOCD| <= j
  {
    assert data[j..j + |EOCD|][0] == data[j];
    assert forall m :: i <= m < i + |EOCD| ==> data[m] == data[i..i + |EOCD|][m - i];
  }

  /** The last header is the block's own: none starts inside it, and the rest holds none. */
  lemma LastHeader(body: Bytes, signature: Bytes)
    requires |signature| < 0x1_0000_0000
    requires forall i :: !OccursAt(Word32(|signature|) + signature, HEADER, i)
    ensures var data := body + Block(signature); RFind(data, HEADER, 0, |data| - |FOOTER|) == |body|
  {
    var rest := Word32(|signature|) + signature;
    var data := body + Block(signature);
    assert data == body + HEADER + rest + FOOTER;
    var at, end := |body| + |HEADER|, |data| - |FOOTER|;
    assert data[|body|..at] == HEADER && data[at..end] == rest;
    var j := RFind(data, HEADER, 0, end);
    assert OccursAt(data, HEADER, |body|);
    HeadersApart(data, |body|, j);
    if at <= j { OccursInSlice(data, at, end, HEADER, j); }
  }

  lemma SplitBlock(body: Bytes, signature: Bytes)
    requires |signature| < 0x1_0000_0000
    requires forall i :: !OccursAt(Word32(|signature|) + signature, HEADER, i)
    ensures SplitSignature(body + Block(signature)) == (Undeclare(body), Signed)
  {
    var data := body + Block(signature);
    LastHeader(body, signature);
    var start, end := |body| + |HEADER|, |data| - |FOOTER|;
    assert data[end..] == FOOTER;
    assert data[start..start + 4] == Word32(|signature|);
    assert data[..|body|] == body;
  }

  /** A bundle whose trailer is exact is left alone. */
  lemma UndeclareExact(u: Bytes)
    requires TrailerErrors(u) == None
    ensures Undeclare(u) == u
  {
    var e := LastEocd(u);
    RedeclareSame(u, e, |u| - e - EOCD_SIZE);
  }

  lemma RedeclareSame(u: Bytes, e: nat, n: nat)
    requires e + EOCD_SIZE <= |u| && Declared(u, e) == n
    ensures n <= MAX_COMMENT && Redeclare(u, e, n) == u
  {
    ReadWord(u[e + FIELD..e + EOCD_SIZE]);
  }

  /** A record that is rewritten twice holds the second number. */
  lemma RedeclareBack(u: Bytes, e: nat, n: nat, m: nat)
    requires e + EOCD_SIZE <= |u| && n <= MAX_COMMENT && Declared(u, e) == m
    ensures m <= MAX_COMMENT && Redeclare(Redeclare(u, e, n), e, m) == u
  {
    RedeclareSame(u, e, m);
  }

  /** The record is still a record once its field is rewritten. */
  lemma RecordStays(u: Bytes, n: nat)
    requires LastEocd(u) >= 0 && n <= MAX_COMMENT
    ensures var e, r := LastEocd(u), Redeclare(u, LastEocd(u), n);
            var x := RFind(r, EOCD, Max(0, |r| - REACH), |r|); x == e || x >= e + |EOCD|
  {
    var e, r := LastEocd(u), Redeclare(u, LastEocd(u), n);
    assert r[e..e + |EOCD|] == u[e..e + |EOCD|];
    assert OccursAt(r, EOCD, e);
    RecordsApart(r, e, RFind(r, EOCD, Max(0, |r| - REACH), |r|));
  }

  /** Setting the field back gives the bundle exactly when rewriting it did not move the last record. */
  lemma UndeclareRedeclared(u: Bytes, n: nat)
    requires TrailerErrors(u) == None && n <= MAX_COMMENT
    ensures Undeclare(Redeclare(u, LastEocd(u), n)) == u <==> LastEocd(Redeclare(u, LastEocd(u), n)) == LastEocd(u)
  {
    var e := LastEocd(u);
    var r := Redeclare(u, e, n);
    if LastEocd(r) == e {
      RedeclareBack(u, e, n, |u| - e - EOCD_SIZE);
    } else {
      RecordStays(u, n);
      UndeclareElsewhere(r, e + FIELD);
      UndeclareElsewhere(r, e + FIELD + 1);
      FieldDiffers(u, e, n);
    }
  }

  lemma UndeclareElsewhere(r: Bytes, i: nat)
    requires i < |r| && (LastEocd(r) < 0 || !(LastEocd(r) + FIELD <= i < LastEocd(r) + EOCD_SIZE))
    ensures |Undeclare(r)| == |r| && Undeclare(r)[i] == r[i]
  {
  }

  lemma FieldDiffers(u: Bytes, e: nat, n: nat)
    requires e + EOCD_SIZE <= |u| && n <= MAX_COMMENT
    ensures var r := Redeclare(u, e, n); r != u ==> r[e + FIELD] != u[e + FIELD] || r[e + FIELD + 1] != u[e + FIELD + 1]
  {
    var r := Redeclare(u, e, n);
    if r[e + FIELD] == u[e + FIELD] && r[e + FIELD + 1] == u[e + FIELD + 1] {
      assert forall i :: 0 <= i < |u| ==> r[i] == u[i];
    }
  }

  function Zeros(n: nat): Bytes { seq(n, _ => 0) }

  /** A record whose comment length, once it is 0x4b50, reads as the start of another with the two bytes after it. */
  function Moving(field: Bytes): Bytes { EOCD + Zeros(16) + field + [5, 6] + Zeros(18) }

  /** The last place where the magic's first byte stands before the rest of it is the record. */
  lemma LastEocdIs(data: Bytes, e: nat)
    requires OccursAt(data, EOCD, e) && e + EOCD_SIZE <= |data| <= REACH &&
             forall j :: e < j < |data| ==> data[j] != EOCD[0]
    ensures LastEocd(data) == e
  {
    var x := RFind(data, EOCD, 0, |data|);
    assert data[x] == data[x..x + |EOCD|][0];
  }

  lemma MovingBytes(field: Bytes)
    requires |field| == 2
    ensures var data := Moving(field);
            && |data| == 42 && data[..4] == EOCD && data[20..22] == field && data[20..24] == field + [5, 6]
            && forall j :: 4 <= j < 42 && data[j] != 0 && data[j] != 5 && data[j] != 6 ==> 20 <= j < 22
  {
  }

  /**
   * Rewriting a bundle's comment length can move its last record, and setting it back then does not restore the
   * bundle.
   */
  lemma RewriteMoves()
    ensures var u := Moving([20, 0]);
            && TrailerErrors(u) == None && LastEocd(u) == 0 && LastEocd(Redeclare(u, 0, 0x4b50)) == 20
            && Undeclare(Redeclare(u, 0, 0x4b50)) != u
  {
    MovingRecord();
    MovedRecord();
    UndeclareRedeclared(Moving([20, 0]), 0x4b50);
  }

  lemma MovingRecord()
    ensures var u := Moving([20, 0]); TrailerErrors(u) == None && LastEocd(u) == 0
  {
    MovingBytes([20, 0]);
    LastEocdIs(Moving([20, 0]), 0);
  }

  lemma MovedRecord()
    ensures LastEocd(Redeclare(Moving([20, 0]), 0, 0x4b50)) == 20
  {
    var r := Moving([0x50, 0x4b]);
    MovingBytes([0x50, 0x4b]);
    LastEocdIs(r, 20);
    assert Redeclare(Moving([20, 0]), 0, 0x4b50) == r;
  }

  /** What a signer makes of a bundle: the block appended, its length perhaps counted in the record. */
  function Sign(u: Bytes, declared: Option<nat>, signature: Bytes): Bytes
    requires LastEocd(u) >= 0 && |signature| < 0x1_0000_0000 && (declared.Some? ==> declared.value <= MAX_COMMENT)
  {
    Rewritten(u, declared) + Block(signature)
  }

  function Rewritten(u: Bytes, declared: Option<nat>): Bytes
    requires LastEocd(u) >= 0 && (declared.Some? ==> declared.value <= MAX_COMMENT)
  {
    if declared.Some? then Redeclare(u, LastEocd(u), declared.value) else u
  }

  /**
   * Splitting inverts signing, whether or not the signer rewrote the comment length, exactly when that left the
   * record last.
   */
  lemma SplitInvertsSign(u: Bytes, declared: Option<nat>, signature: Bytes)
    requires TrailerErrors(u) == None && |signature| < 0x1_0000_0000 &&
             (declared.Some? ==> declared.value <= MAX_COMMENT)
    requires forall i :: !OccursAt(Word32(|signature|) + signature, HEADER, i)
    ensures SplitSignature(Sign(u, declared, signature)).1 == Signed
    ensures SplitSignature(Sign(u, declared, signature)).0 == u <==> LastEocd(Rewritten(u, declared)) == LastEocd(u)
  {
    SplitBlock(Rewritten(u, declared), signature);
    if declared.Some? { UndeclareRedeclared(u, declared.value); } else { UndeclareExact(u); }
  }
}
