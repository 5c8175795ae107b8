/** The 90-byte report every exchange with the mouse uses: its layout, the
    template the driver starts each request from, and the XOR checksum.

    Layout of `struct razer_report` (the header declaring it is not part of this
    model; the offsets are an assumption backed by how the driver uses the struct):
      0 report_start_marker, 1 id, 2 parameter_bytes_num, 3 reserved2 (the group,
      i.e. the subsystem), 4 command, 5 sub_command, 6..85 command_parameters,
      86..87 unused, 88 crc, 89 unused.
 */
module Report {

  type byte = bv8

  /** Length of every report sent or received. */
  const ReportLen: nat := 90

  // Byte offsets of the report's fields.
  const StartMarker: nat := 0
  const Id: nat := 1
  const ParamCount: nat := 2
  const Group: nat := 3
  const Command: nat := 4
  const SubCommand: nat := 5
  const Params: nat := 6
  const ParamsLen: nat := 80
  const Crc: nat := 88
  const Last: nat := 89

  function Zeros(n: nat): (z: seq<byte>)
    ensures |z| == n
    ensures forall i :: 0 <= i < n ==> z[i] == 0
  {
    seq(n, _ => 0)
  }

  type Frame = s: seq<byte> | |s| == ReportLen witness Zeros(ReportLen)

  /** XOR of the bytes of `s`, folded from the left as the driver's loop folds them. */
  function XorFold(s: seq<byte>): byte
  {
    if |s| == 0 then 0 else XorFold(s[..|s| - 1]) ^ s[|s| - 1]
  }

  /** Folding a concatenation folds each part separately. */
  lemma {:induction false} XorFoldAppend(a: seq<byte>, b: seq<byte>)
    ensures XorFold(a + b) == XorFold(a) ^ XorFold(b)
    decreases |b|
  {
    if |b| == 0 {
      assert a + b == a;
    } else {
      var b' := b[..|b| - 1];
      assert (a + b)[..|a + b| - 1] == a + b';
      assert (a + b)[|a + b| - 1] == b[|b| - 1];
      XorFoldAppend(a, b');
    }
  }

  /** Zero bytes contribute nothing to the fold. */
  lemma {:induction false} XorFoldZeros(n: nat)
    ensures XorFold(Zeros(n)) == 0
  {
    if n > 0 {
      assert Zeros(n)[..n - 1] == Zeros(n - 1);
      XorFoldZeros(n - 1);
    }
  }

  /** The checksum stored at offset 88: the XOR of bytes 2 through 87. */
  function Checksum(f: Frame): byte
  {
    XorFold(f[ParamCount..Crc])
  }

  /** razer_calculate_crc: XOR the report's bytes from index 2 up to, not
      including, index 88. */
  method CalculateCrc(f: Frame) returns (crc: byte)
    ensures crc == Checksum(f)
  {
    crc := 0;
    var i := ParamCount;
    while i < Crc
      invariant ParamCount <= i <= Crc
      invariant crc == XorFold(f[ParamCount..i])
    {
      assert f[ParamCount..i + 1] == f[ParamCount..i] + [f[i]];
      XorFoldSnoc(f[ParamCount..i], f[i]);
      crc := crc ^ f[i];
      i := i + 1;
    }
  }

  /** Bytes 0, 1, 88 and 89 lie outside the checksum window: frames that agree
      on bytes 2..87 have the same checksum. */
  lemma ChecksumIgnoresUnsummedBytes(f: Frame, g: Frame)
    requires forall i :: ParamCount <= i < Crc ==> f[i] == g[i]
    ensures Checksum(f) == Checksum(g)
  {
    assert f[ParamCount..Crc] == g[ParamCount..Crc];
  }

  /** A frame whose checksum byte is correct. */
  predicate Sealed(f: Frame)
  {
    f[Crc] == Checksum(f)
  }

  /** razer_prepare_report: the zeroed report with id 0xFF and group 0x03. */
  function Prepare(): (f: Frame)
    ensures f[Id] == 0xFF && f[Group] == 0x03
    ensures forall i :: 0 <= i < ReportLen && i != Id && i != Group ==> f[i] == 0
  {
    Zeros(ReportLen)[Id := 0xFF][Group := 0x03]
  }

  /** `report.crc = razer_calculate_crc(&report)`: stores the checksum and
      changes nothing else. */
  function Seal(f: Frame): (g: Frame)
    ensures Sealed(g)
    ensures forall i :: 0 <= i < ReportLen && i != Crc ==> g[i] == f[i]
  {
    var g := f[Crc := Checksum(f)];
    ChecksumIgnoresUnsummedBytes(f, g);
    g
  }

  /** Sealing twice is sealing once. */
  lemma SealIdempotent(f: Frame)
    ensures Seal(Seal(f)) == Seal(f)
  {
  }

  /** What a receiver can check: across bytes 2..88 of a sealed frame, the
      checksum byte included, the XOR is zero. */
  lemma SealedFoldsToZero(f: Frame)
    requires Sealed(f)
    ensures XorFold(f[ParamCount..Crc + 1]) == 0
  {
    assert f[ParamCount..Crc + 1] == f[ParamCount..Crc] + [f[Crc]];
    XorFoldAppend(f[ParamCount..Crc], [f[Crc]]);
    assert [f[Crc]][..0] == [];
  }

  /** `f` is a sealed outbound request: start marker 0x00, id 0xFF, the given
      count, group and command, and every parameter byte from index `used` on
      still zero, as in the template. */
  predicate Shaped(f: Frame, count: byte, group: byte, command: byte, used: nat)
  {
    && f[StartMarker] == 0x00
    && f[Id] == 0xFF
    && f[ParamCount] == count
    && f[Group] == group
    && f[Command] == command
    && (forall i :: Params + used <= i < Crc ==> f[i] == 0)
    && f[Last] == 0
    && Sealed(f)
  }

  /** A request filled the way every driver function fills one: the template,
      then count, group, command, sub-command and the leading parameter bytes,
      then the checksum. */
  function Build(count: byte, group: byte, command: byte, sub: byte, params: seq<byte>): (f: Frame)
    requires |params| <= ParamsLen
    ensures Shaped(f, count, group, command, |params|)
    ensures f[SubCommand] == sub
    ensures f[Params..Params + |params|] == params
  {
    var t := Prepare()[ParamCount := count][Group := group][Command := command][SubCommand := sub];
    Seal(t[..Params] + params + t[Params + |params|..])
  }

  /** Two adjacent slices of a sequence join into the slice spanning both. */
  lemma SliceJoin(s: seq<byte>, i: nat, j: nat, k: nat)
    requires i <= j <= k <= |s|
    ensures s[i..k] == s[i..j] + s[j..k]
  {
  }

  /** Two runs of zeros make one. */
  lemma ZerosAppend(m: nat, n: nat)
    ensures Zeros(m) + Zeros(n) == Zeros(m + n)
  {
  }

  /** Folding one more byte XORs it into the running value, as one loop step does. */
  lemma XorFoldSnoc(s: seq<byte>, x: byte)
    ensures XorFold(s + [x]) == XorFold(s) ^ x
  {
  }

  lemma XorFoldFour(a: byte, b: byte, c: byte, d: byte)
    ensures XorFold([a, b, c, d]) == a ^ b ^ c ^ d
  {
    XorFoldSnoc([], a);
    assert [] + [a] == [a];
    XorFoldSnoc([a], b);
    assert [a] + [b] == [a, b];
    XorFoldSnoc([a, b], c);
    assert [a, b] + [c] == [a, b, c];
    XorFoldSnoc([a, b, c], d);
    assert [a, b, c] + [d] == [a, b, c, d];
  }

  /** The checksum window of a request: the four header fields, the
      parameters, and zeros up to index 88. */
  lemma RequestWindow(f: Frame, count: byte, group: byte, command: byte, sub: byte, params: seq<byte>)
    requires |params| <= ParamsLen
    requires Shaped(f, count, group, command, |params|)
    requires f[SubCommand] == sub && f[Params..Params + |params|] == params
    ensures f[ParamCount..Crc] == [count, group, command, sub] + params + Zeros(Crc - Params - |params|)
  {
  }

  /** The fold of a checksum window: the zero padding drops out and the four
      header bytes are XORed onto the fold of the parameters. */
  lemma XorFoldWindow(count: byte, group: byte, command: byte, sub: byte, params: seq<byte>, rest: nat)
    ensures XorFold([count, group, command, sub] + params + Zeros(rest))
            == count ^ group ^ command ^ sub ^ XorFold(params)
  {
    var header := [count, group, command, sub];
    XorFoldAppend(header + params, Zeros(rest));
    XorFoldZeros(rest);
    XorFoldAppend(header, params);
    XorFoldFour(count, group, command, sub);
  }

  /** The checksum of a request depends only on the fields written into the
      template: count, group, command, sub-command and the parameters. */
  lemma ChecksumOfRequest(f: Frame, count: byte, group: byte, command: byte, sub: byte, params: seq<byte>)
    requires |params| <= ParamsLen
    requires Shaped(f, count, group, command, |params|)
    requires f[SubCommand] == sub && f[Params..Params + |params|] == params
    ensures f[Crc] == count ^ group ^ command ^ sub ^ XorFold(params)
  {
    RequestWindow(f, count, group, command, sub, params);
    XorFoldWindow(count, group, command, sub, params, Crc - Params - |params|);
  }
}
