/** The map between WebTransport application error codes and HTTP/3 error codes, section 4.4 of
    draft-ietf-webtrans-http3-16: 30 codes out of every 31 are used, the one left over is reserved. */
module ErrorCodes {
  import opened Text

  const FIRST := 0x52e4a40fa8db
  const LAST := 0x52e5ac983162
  const MAX_CODE := 0xffff_ffff

  type Code = n: int | 0 <= n <= MAX_CODE
  type Uint64 = n: int | 0 <= n < 0x1_0000_0000_0000_0000

  predicate Reserved(h: int) {
    (h - 0x21) % 0x1f == 0
  }

  function ToHttp(n: Code): (h: Uint64) {
    FIRST + n + n / 0x1e
  }

  function FromHttp(h: Uint64): (r: Option<Code>) {
    if h < FIRST || h > LAST then None
    else if Reserved(h) then None
    else
      var shifted := h - FIRST;
      var code := shifted - shifted / 0x1f;
      if code > MAX_CODE then None else Some(code)
  }

  /** In blocks: code 30 q + r goes to offset 31 q + r, so offset 30 of each block stays free. */
  lemma Blocks(n: Code)
    ensures var s := ToHttp(n) - FIRST; s / 0x1f == n / 0x1e && s % 0x1f == n % 0x1e
  {
    var q, r := n / 0x1e, n % 0x1e;
    assert n + q == 0x1f * q + r;
  }

  /** The reserved codes in the range are those at offset 30 of a block. */
  lemma ReservedOffset(h: int)
    requires h >= FIRST
    ensures Reserved(h) <==> (h - FIRST) % 0x1f == 0x1e
  {
    var k := (FIRST - 0x21) / 0x1f;
    assert h - 0x21 == (h - FIRST + 1) + 0x1f * k;
  }

  /** Where the code map is defined, and that its last branch never refuses anything. */
  lemma FromHttpDefinedIff(h: Uint64)
    ensures FromHttp(h).Some? <==> FIRST <= h <= LAST && !Reserved(h)
    ensures FIRST <= h <= LAST ==> (h - FIRST) - (h - FIRST) / 0x1f <= MAX_CODE
  {
  }

  /** Both maps are inverse to each other on all codes. */
  lemma InverseIff(n: Code, h: Uint64)
    ensures ToHttp(n) == h <==> FromHttp(h) == Some(n)
  {
    Blocks(n);
    if FIRST <= h {
      ReservedOffset(h);
      var q, r := (h - FIRST) / 0x1f, (h - FIRST) % 0x1f;
      assert (h - FIRST) - q == 0x1e * q + r;
      if r < 0x1e {
        assert (0x1e * q + r) / 0x1e == q;
      }
    }
  }

  lemma StrictlyIncreasing(m: Code, n: Code)
    ensures m < n <==> ToHttp(m) < ToHttp(n)
  {
  }

  /** Every code lands in the range, off the reserved points, and both ends are reached. */
  lemma RangeExact(n: Code)
    ensures FIRST <= ToHttp(n) <= LAST && !Reserved(ToHttp(n))
    ensures ToHttp(n) == FIRST <==> n == 0
    ensures ToHttp(n) == LAST <==> n == MAX_CODE
  {
    Blocks(n);
    ReservedOffset(ToHttp(n));
  }
}
