/** The wallet card's short form of an address: the first six and the last four characters. */
module WalletConnect {
  import opened JsStrings

  function Min(a: int, b: int): int {
    if a <= b then a else b
  }

  /** `${address.slice(0, 6)}...${address.slice(-4)}` */
  function FormatAddress(address: string): (r: string)
    ensures r == address[..Min(6, |address|)] + "..." + address[|address| - Min(4, |address|)..]
  {
    SlicePrefix(address, 6);
    SliceSuffix(address, 4);
    Slice(address, 0, 6) + "..." + SliceFrom(address, -4)
  }

  /** An address of ten characters or more is shortened to thirteen. */
  lemma FormatAddressLength(address: string)
    requires |address| >= 10
    ensures |FormatAddress(address)| == 13
  {
  }

  /** The short form starts with the address's first characters and ends with its last ones. */
  lemma FormatAddressEnds(address: string)
    ensures address[..Min(6, |address|)] <= FormatAddress(address)
    ensures var r := FormatAddress(address);
      var k := Min(4, |address|);
      |r| >= k && r[|r| - k..] == address[|address| - k..]
  {
    var r := FormatAddress(address);
    var k := Min(4, |address|);
    assert r[..Min(6, |address|)] == address[..Min(6, |address|)];
    assert r[|r| - k..] == address[|address| - k..];
  }

  /** An address shorter than four characters appears whole on both sides. */
  lemma FormatAddressOfShort(address: string)
    requires |address| < 4
    ensures FormatAddress(address) == address + "..." + address
  {
  }
}
