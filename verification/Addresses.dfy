/**
 Node addresses (membership-protocol/Member.h) and how the emulated network compares them
 (membership-protocol/EmulNet.cpp): six bytes, a little-endian id and a port, taken for a C string.
 */
module Addresses {

  datatype Address = Address(id: int, port: int)

  const MAX_NODES := 1000

  /** The address that `ENinit` gives to the `id`-th node. */
  function NodeAddress(id: int): Address
  {
    Address(id, 0)
  }

  function Byte(x: int, k: nat): nat
    decreases k
  {
    if k == 0 then x % 256 else Byte(x / 256, k - 1)
  }

  /** The six bytes in memory; negative numbers in two's complement. */
  function Bytes(a: Address): seq<nat>
  {
    [Byte(a.id, 0), Byte(a.id, 1), Byte(a.id, 2), Byte(a.id, 3), Byte(a.port, 0), Byte(a.port, 1)]
  }

  /** What `strcmp` reads: the bytes up to the first zero. */
  function CString(bytes: seq<nat>): seq<nat>
  {
    if bytes == [] || bytes[0] == 0 then [] else [bytes[0]] + CString(bytes[1..])
  }

  /** `strcmp(a.addr, b.addr) == 0`, for addresses whose port ends the string. */
  predicate Matches(a: Address, b: Address)
  {
    CString(Bytes(a)) == CString(Bytes(b))
  }

  lemma BytesOfNode(id: int)
    requires 0 <= id < 65536
    ensures Bytes(NodeAddress(id)) == [id % 256, id / 256, 0, 0, 0, 0]
  {
    assert Byte(id, 1) == Byte(id / 256, 0) == id / 256;
    assert Byte(id, 2) == Byte(id / 256, 1) == Byte(id / 256 / 256, 0) == 0;
    assert Byte(id, 3) == Byte(id / 256, 2) == Byte(id / 256 / 256, 1) == Byte(id / 256 / 256 / 256, 0) == 0;
    assert Byte(0, 1) == Byte(0, 0) == 0;
  }

  lemma CStringOfTwo(x: nat, y: nat)
    ensures CString([x, y, 0, 0, 0, 0]) == if x == 0 then [] else if y == 0 then [x] else [x, y]
  {
    assert [x, y, 0, 0, 0, 0][1..] == [y, 0, 0, 0, 0];
    assert [y, 0, 0, 0, 0][1..] == [0, 0, 0, 0];
    assert CString([0, 0, 0, 0]) == [];
    assert CString([y, 0, 0, 0, 0]) == if y == 0 then [] else [y];
  }

  /**
   The string comparison confuses two nodes exactly when both ids are multiples of 256: such an id
   begins with a zero byte, so the string is empty.
   */
  lemma MatchIsEquality(a: int, b: int)
    requires 1 <= a <= MAX_NODES && 1 <= b <= MAX_NODES
    ensures Matches(NodeAddress(a), NodeAddress(b)) <==> a == b || (a % 256 == 0 && b % 256 == 0)
  {
    BytesOfNode(a);
    BytesOfNode(b);
    CStringOfTwo(a % 256, a / 256);
    CStringOfTwo(b % 256, b / 256);
  }

  /** So addressing is exact in a group of n nodes if and only if n < 512. */
  lemma AddressingExact(n: nat)
    requires n <= MAX_NODES
    ensures (forall a, b :: 1 <= a <= n && 1 <= b <= n && Matches(NodeAddress(a), NodeAddress(b)) ==> a == b) <==> n < 512
  {
    forall a, b | 1 <= a <= n && 1 <= b <= n && n < 512 && Matches(NodeAddress(a), NodeAddress(b)) ensures a == b {
      MatchIsEquality(a, b);
    }
    MatchIsEquality(256, 512);
  }
}
