/** Whether the size written for an area reaches past its last word. */
module AreaSizes {
  import opened Assembly
  import opened RelWriter

  lemma {:induction false} MaxAddressIsMax(s: seq<EmittedWord>)
    ensures forall w | w in s :: w.address <= MaxAddress(s)
    ensures s != [] ==> exists w :: w in s && w.address == MaxAddress(s)
  {
    if s != [] {
      MaxAddressIsMax(s[1..]);
      assert s == [s[0]] + s[1..];
      if s[0].address > MaxAddress(s[1..]) || |s| == 1 {
        assert s[0] in s && s[0].address == MaxAddress(s);
      } else {
        var w :| w in s[1..] && w.address == MaxAddress(s[1..]);
        assert w in s;
      }
    }
  }

  /** Every word of the area lies below the written size. */
  ghost predicate SizeCovers(m: Module, area: string) {
    forall w | w in WordsOf(m, area) :: ByteAddr(w, m.byteAddrs) + 2 <= SizeRel(m, area)
  }

  /** For the MN1613 the writer takes the larger of a count of words and a count of bytes.  So the size
      covers the words exactly when the recorded area size, in words, already does; doubling it to bytes
      loses its bit 15. */
  lemma AreaSizeCovers(m: Module, area: string)
    requires !m.byteAddrs && WordsOf(m, area) != []
    ensures SizeCovers(m, area) <==> MaxAddress(WordsOf(m, area)) < InfoSize(m.areas, area) % 0x8000
  {
    hide WordsOf, MaxAddress, InfoSize;
    var s := WordsOf(m, area);
    MaxAddressIsMax(s);
    var top :| top in s && top.address == MaxAddress(s);
    Doubled(InfoSize(m.areas, area));
    assert SizeCovers(m, area) ==> ByteAddr(top, false) + 2 <= SizeRel(m, area);
  }

  lemma Doubled(v: nat)
    ensures v * 2 % 0x1_0000 == v % 0x8000 * 2
  {
  }

  /** The TMS9995 counts bytes on both sides, and its size always covers the words. */
  lemma ByteAreaSizeCovers(m: Module, area: string)
    requires m.byteAddrs
    ensures SizeCovers(m, area)
  {
    hide WordsOf, MaxAddress, InfoSize;
    MaxAddressIsMax(WordsOf(m, area));
  }
}
