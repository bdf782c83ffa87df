/** What a bundle's end, its record and its block are, byte by byte. */
module BundleForms {
  import opened ByteStrings
  import opened Numbers
  import opened Search
  import opened BundleSignature
  import BundleAdoption

  function Ascii(s: string): Bytes
    requires forall i :: 0 <= i < |s| ==> s[i] as int < 128
  {
    seq(|s|, i requires 0 <= i < |s| => s[i] as int)
  }

  lemma Marks()
    ensures HEADER == Ascii("MCPB_SIG_V1") && FOOTER == Ascii("MCPB_SIG_END") && EOCD == Ascii("PK") + [5, 6]
  {
  }

  /** The bytes hold this text from `i` on. */
  predicate Holds(data: Bytes, i: int, text: Bytes) {
    0 <= i && i + |text| <= |data| && forall k :: 0 <= k < |text| ==> data[i + k] == text[k]
  }

  lemma HoldsIff(data: Bytes, i: int, text: Bytes)
    ensures OccursAt(data, text, i) <==> Holds(data, i, text)
  {
    if OccursAt(data, text, i) {
      var part := data[i..i + |text|];
      assert forall k :: 0 <= k < |text| ==> part[k] == data[i + k];
    }
    if Holds(data, i, text) { assert data[i..i + |text|] == text; }
  }

  // ---- The record ----

  /** A record's magic where a strict reader looks: within 1 MiB and a full comment of the end. */
  predicate Magic(data: Bytes, i: int) { |data| - i <= 22 + 65535 + 1048576 && Holds(data, i, Ascii("PK") + [5, 6]) }

  /** The last one, with room for the record after it. */
  ghost predicate IsRecord(data: Bytes, e: int) {
    Magic(data, e) && e + 22 <= |data| && forall j {:trigger Magic(data, j)} :: e < j ==> !Magic(data, j)
  }

  /** The record is the last magic in reach, and a cut one is none. */
  lemma RecordIff(data: Bytes)
    ensures forall e {:trigger IsRecord(data, e)} :: IsRecord(data, e) <==> e >= 0 && LastEocd(data) == e
    ensures LastEocd(data) >= 0 <==> exists e :: IsRecord(data, e)
    ensures LastEocd(data) >= -1
  {
    Marks();
    forall i ensures Magic(data, i) <==> Max(0, |data| - REACH) <= i && OccursAt(data, EOCD, i) {
      HoldsIff(data, i, EOCD);
    }
    forall e ensures IsRecord(data, e) <==> e >= 0 && LastEocd(data) == e {
      RecordAt(data, e);
    }
    assert LastEocd(data) >= 0 ==> IsRecord(data, LastEocd(data));
  }

  lemma RecordAt(data: Bytes, e: int)
    requires forall i :: Magic(data, i) <==> Max(0, |data| - REACH) <= i && OccursAt(data, EOCD, i)
    ensures IsRecord(data, e) <==> e >= 0 && LastEocd(data) == e
  {
    var x := RFind(data, EOCD, Max(0, |data| - REACH), |data|);
    assert x >= 0 ==> Magic(data, x);
    if IsRecord(data, e) { assert x == e; }
    if e >= 0 && LastEocd(data) == e {
      forall j | e < j ensures !Magic(data, j) {
        assert Magic(data, j) ==> j <= x;
      }
    }
  }

  /** The comment length a record at `e` declares. */
  function Count(data: Bytes, e: int): int
    requires 0 <= e && e + 22 <= |data|
  {
    data[e + 20] as int + 256 * data[e + 21] as int
  }

  /** A strict reader takes the end exactly when the record counts what follows it; otherwise both are told. */
  lemma TrailerIff(data: Bytes)
    ensures TrailerErrors(data) == Some(NoRecord) <==> forall e :: !IsRecord(data, e)
    ensures forall e {:trigger IsRecord(data, e)} :: IsRecord(data, e) ==>
              TrailerErrors(data) ==
              if Count(data, e) == |data| - e - 22 then None else Some(Miscounted(|data| - e - 22, Count(data, e)))
  {
    RecordIff(data);
  }

  /** Only the two bytes of the comment length change, and they count what follows; without a record, nothing does. */
  lemma UndeclareIs(data: Bytes, e: int)
    ensures (forall i :: !IsRecord(data, i)) ==> Undeclare(data) == data
    ensures IsRecord(data, e) && |data| - e - 22 > 65535 ==> Undeclare(data) == data
    ensures IsRecord(data, e) && |data| - e - 22 <= 65535 ==>
              var r := Undeclare(data);
              && |r| == |data| && Count(r, e) == |data| - e - 22
              && forall i :: 0 <= i < |data| && i != e + 20 && i != e + 21 ==> r[i] == data[i]
  {
    RecordIff(data);
    if IsRecord(data, e) && |data| - e - 22 <= 65535 {
      var r := Undeclare(data);
      assert r[e + 20..e + 22] == Word16(|data| - e - 22);
      assert r[e + 20] == r[e + 20..e + 22][0] && r[e + 21] == r[e + 20..e + 22][1];
    }
  }

  // ---- The block ----

  predicate HeaderAt(data: Bytes, k: int) { k + 11 <= |data| - 12 && Holds(data, k, Ascii("MCPB_SIG_V1")) }

  ghost predicate LastHeaderAt(data: Bytes, k: int) {
    HeaderAt(data, k) && forall j {:trigger HeaderAt(data, j)} :: k < j ==> !HeaderAt(data, j)
  }

  /** A number in four bytes, the least first. */
  function Length(data: Bytes, i: int): int
    requires 0 <= i && i + 4 <= |data|
  {
    data[i] as int + 256 * data[i + 1] as int + 65536 * data[i + 2] as int + 16777216 * data[i + 3] as int
  }

  /** A block from `k` to the end: the last header, a length, that many bytes, the footer. */
  ghost predicate BlockAt(data: Bytes, k: int) {
    && LastHeaderAt(data, k) && k + 27 <= |data| && Holds(data, |data| - 12, Ascii("MCPB_SIG_END"))
    && Length(data, k + 11) == |data| - k - 27
  }

  lemma LengthIs(data: Bytes, i: int)
    requires 0 <= i && i + 4 <= |data|
    ensures Read32(data[i..i + 4]) == Length(data, i)
  {
    var b := data[i..i + 4];
    assert b[..2] == [b[0], b[1]] && b[2..] == [b[2], b[3]];
  }

  lemma FooterIff(data: Bytes)
    ensures Holds(data, |data| - 12, Ascii("MCPB_SIG_END")) <==> |data| >= 12 && data[|data| - 12..] == FOOTER
  {
    Marks();
    HoldsIff(data, |data| - 12, FOOTER);
    assert |data| >= 12 ==> data[|data| - 12..] == data[|data| - 12..|data| - 12 + 12];
  }

  lemma HeaderIff(data: Bytes, h: int)
    requires |data| >= 12 && h == RFind(data, HEADER, 0, |data| - 12)
    ensures forall k {:trigger LastHeaderAt(data, k)} :: LastHeaderAt(data, k) <==> 0 <= k == h
  {
    Marks();
    forall j ensures OccursAt(data, HEADER, j) <==> Holds(data, j, Ascii("MCPB_SIG_V1")) { HoldsIff(data, j, HEADER); }
    forall j ensures HeaderAt(data, j) ==> j <= h {
      assert HeaderAt(data, j) ==> OccursAt(data, HEADER, j);
    }
    assert h >= 0 ==> HeaderAt(data, h);
  }

  /**
   * Without the footer a bundle is unsigned, with a whole block at its last header it is signed, and otherwise
   * malformed; only a signed one comes back as something else, as what precedes the block.
   */
  lemma SplitIff(data: Bytes)
    ensures var (content, state) := SplitSignature(data);
            && (state == Unsigned <==> !Holds(data, |data| - 12, Ascii("MCPB_SIG_END")))
            && (state == Signed <==> exists k :: BlockAt(data, k))
            && (state != Signed ==> content == data)
            && forall k {:trigger BlockAt(data, k)} :: BlockAt(data, k) ==> content == Undeclare(data[..k])
  {
    FooterIff(data);
    if Holds(data, |data| - 12, Ascii("MCPB_SIG_END")) { SplitFooted(data, RFind(data, HEADER, 0, |data| - 12)); }
  }

  /** The length after a header at `h` reaches to the footer. */
  predicate Reaches(data: Bytes, h: int) { 0 <= h && h + 27 <= |data| && Length(data, h + 11) == |data| - h - 27 }

  lemma SplitAt(data: Bytes, h: int)
    requires |data| >= 12 && data[|data| - 12..] == FOOTER && h == RFind(data, HEADER, 0, |data| - 12)
    ensures SplitSignature(data) == if Reaches(data, h) then (Undeclare(data[..h]), Signed) else (data, Malformed)
  {
    if 0 <= h && h + 27 <= |data| { LengthIs(data, h + 11); }
  }

  lemma BlocksAt(data: Bytes, h: int)
    requires |data| >= 12 && data[|data| - 12..] == FOOTER && h == RFind(data, HEADER, 0, |data| - 12)
    ensures forall k {:trigger BlockAt(data, k)} :: BlockAt(data, k) <==> k == h && Reaches(data, h)
  {
    FooterIff(data);
    HeaderIff(data, h);
    forall k ensures BlockAt(data, k) <==> k == h && Reaches(data, h) {
      assert LastHeaderAt(data, k) <==> 0 <= k == h;
    }
  }

  lemma SplitFooted(data: Bytes, h: int)
    requires |data| >= 12 && data[|data| - 12..] == FOOTER && h == RFind(data, HEADER, 0, |data| - 12)
    ensures forall k {:trigger BlockAt(data, k)} :: BlockAt(data, k) ==>
              k == h && SplitSignature(data) == (Undeclare(data[..k]), Signed)
    ensures if SplitSignature(data).1 == Signed then BlockAt(data, h) else SplitSignature(data) == (data, Malformed)
  {
    SplitAt(data, h);
    BlocksAt(data, h);
  }

  /** A bundle's name has something before `.mcpb`. */
  lemma BundleIff(name: string)
    ensures BundleAdoption.IsBundle(name) <==> exists stem: string :: stem != "" && name == stem + ".mcpb"
  {
    if BundleAdoption.IsBundle(name) {
      var stem := name[..|name| - 5];
      assert stem != "" && name == stem + ".mcpb";
    }
    if stem: string :| stem != "" && name == stem + ".mcpb" { assert name[|name| - 5..] == ".mcpb"; }
  }
}
