/** Ids for hand-entered records (backend/pkg/utils/id_generator.go):
    `manual_<type>_<nanoseconds>_<8 hex digits>`. The clock reading and the
    outcome of reading four random bytes are parameters. */
module IdGenerator {
  import opened Wrappers
  import opened Text

  const RandomBytes := 4

  /** Go's `%x` digits: `0`-`9` and `a`-`f`. */
  predicate LowerHex(c: char) {
    '0' <= c <= '9' || 'a' <= c <= 'f'
  }

  lemma {:induction false} HexIsLower(bs: seq<Byte>)
    ensures forall k :: 0 <= k < |Hex(bs)| ==> LowerHex(Hex(bs)[k])
  {
    if bs != [] {
      HexIsLower(bs[1..]);
      var h := Hex(bs);
      assert h == HexByte(bs[0]) + Hex(bs[1..]);
      forall k | 0 <= k < |h| ensures LowerHex(h[k]) {
        if k >= 2 {
          assert h[k] == Hex(bs[1..])[k - 2];
        }
      }
    }
  }

  /** The part every manual id shares, whatever the random bytes. */
  function IdPrefix(entityType: string, nanos: int): string {
    "manual_" + entityType + "_" + DecimalInt(nanos)
  }

  /** `GenerateManualID` at clock reading `nanos`; `random` is what
      `rand.Read` produced: four bytes, or the error it returned. */
  function GenerateManualId(entityType: string, nanos: int, random: Result<seq<Byte>, string>): (r: string)
    requires random.Ok? ==> |random.value| == RandomBytes
    ensures IsPrefix("manual_" + entityType + "_", r)
    ensures IsPrefix(IdPrefix(entityType, nanos), r)
    ensures random.Err? ==> r == IdPrefix(entityType, nanos)
    ensures random.Ok? ==> |r| == |IdPrefix(entityType, nanos)| + 1 + 2 * RandomBytes
    ensures random.Ok? ==> r[|IdPrefix(entityType, nanos)|] == '_'
    ensures random.Ok? ==> forall k :: |r| - 2 * RandomBytes <= k < |r| ==> LowerHex(r[k])
    ensures random.Ok? ==> r[|IdPrefix(entityType, nanos)| + 1..] == Hex(random.value)
  {
    var p := IdPrefix(entityType, nanos);
    assert p[..7 + |entityType| + 1] == "manual_" + entityType + "_";
    match random
    case Err(_) => p
    case Ok(bs) =>
      var r := p + "_" + Hex(bs);
      HexIsLower(bs);
      assert forall k :: |r| - 2 * RandomBytes <= k < |r| ==> r[k] == Hex(bs)[k - |p| - 1];
      assert r[..|p|] == p;
      assert r[|p| + 1..] == Hex(bs);
      assert r[..7 + |entityType| + 1] == p[..7 + |entityType| + 1];
      r
  }

  /** For a fixed type and clock reading, distinct random bytes give
      distinct ids. */
  lemma DistinctBytesDistinctIds(entityType: string, nanos: int, a: seq<Byte>, b: seq<Byte>)
    requires |a| == RandomBytes && |b| == RandomBytes && a != b
    ensures GenerateManualId(entityType, nanos, Ok(a)) != GenerateManualId(entityType, nanos, Ok(b))
  {
    var p := IdPrefix(entityType, nanos);
    var ra := GenerateManualId(entityType, nanos, Ok(a));
    var rb := GenerateManualId(entityType, nanos, Ok(b));
    assert ra == p + "_" + Hex(a) && rb == p + "_" + Hex(b);
    if ra == rb {
      assert Hex(a) == ra[|p| + 1..] == rb[|p| + 1..] == Hex(b);
      HexInjective(a, b);
    }
  }

  /** The fallback id is a proper prefix of every id drawn with random
      bytes at the same reading, and never equal to one. */
  lemma FallbackIsShorter(entityType: string, nanos: int, bs: seq<Byte>, err: string)
    requires |bs| == RandomBytes
    ensures |GenerateManualId(entityType, nanos, Err(err))| + 9 == |GenerateManualId(entityType, nanos, Ok(bs))|
    ensures IsPrefix(GenerateManualId(entityType, nanos, Err(err)), GenerateManualId(entityType, nanos, Ok(bs)))
  {
  }
}
