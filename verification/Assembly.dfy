/** What the assembler hands to the REL writer, and the area names both use. */
module Assembly {
  import opened Results

  /** A relocation operand: a symbol resolved by name, an offset inside an area, or a constant. */
  datatype Operand =
    | Symbol(name: string)
    | Word(value: nat, area: Option<string>)
    | Const(constant: int)

  datatype Width = Word16 | Low8

  datatype Reloc = Reloc(byteAddr: nat, left: Operand, right: Operand, area: Option<string>, width: Width)

  datatype EmittedWord = EmittedWord(address: nat, value: nat, area: string)

  datatype AreaInfo = AreaInfo(name: string, size: nat, noload: bool)

  /** A global or external name, in the order the writer sorts them. */
  datatype Global = Global(name: string, def: bool, value: nat, area: string)

  datatype Checkpoint = Checkpoint(id: string, area: string, address: nat)

  /** `byteAddrs` is true for the TMS9995, whose addresses already count bytes. */
  datatype Module = Module(
    words: seq<EmittedWord>,
    relocs: seq<Reloc>,
    areas: seq<AreaInfo>,
    globals: seq<Global>,
    checkpoints: seq<Checkpoint>,
    byteAddrs: bool)

  // ----- bytes of a 16-bit word

  function Hi(v: nat): nat { v / 256 % 256 }

  function Lo(v: nat): nat { v % 256 }

  // ----- area names

  function UpperChar(c: char): char {
    if 'a' <= c <= 'z' then c - 'a' + 'A' else c
  }

  function Upper(s: string): string { seq(|s|, i requires 0 <= i < |s| => UpperChar(s[i])) }

  /** The unnamed area is `_CODE`. */
  function CanonicalAreaName(name: string): string {
    if name == "" then "_CODE" else Upper(name)
  }

  lemma CanonicalTwice(name: string)
    ensures CanonicalAreaName(CanonicalAreaName(name)) == CanonicalAreaName(name)
  {
    assert name == "" ==> Upper("_CODE") == "_CODE";
    assert Upper(Upper(name)) == Upper(name);
  }

  function CanonicalNames(names: seq<string>): seq<string> {
    seq(|names|, i requires 0 <= i < |names| => CanonicalAreaName(names[i]))
  }

  ghost predicate NoDup<T(!new)>(s: seq<T>) {
    forall i, j | 0 <= i < j < |s| :: s[i] != s[j]
  }

  lemma NoDupConcat<T(!new)>(a: seq<T>, b: seq<T>)
    ensures NoDup(a + b) <==> NoDup(a) && NoDup(b) && forall x | x in a :: x !in b
  {
    var s := a + b;
    if NoDup(s) {
      forall i, j | 0 <= i < j < |a| ensures a[i] != a[j] { assert s[i] != s[j]; }
      forall i, j | 0 <= i < j < |b| ensures b[i] != b[j] { assert s[|a| + i] != s[|a| + j]; }
      forall i, j | 0 <= i < |a| && 0 <= j < |b| ensures a[i] != b[j] { assert s[i] != s[|a| + j]; }
    }
    if NoDup(a) && NoDup(b) && forall x | x in a :: x !in b {
      forall i, j | 0 <= i < j < |s| ensures s[i] != s[j] {
        if i < |a| <= j {
          assert s[i] in a && s[j] == b[j - |a|] && b[j - |a|] in b;
        } else if |a| <= i {
          assert b[i - |a|] != b[j - |a|];
        }
      }
    }
  }

  function Distinct(names: seq<string>): (r: seq<string>)
    ensures NoDup(r) && forall n :: n in r <==> n in names
  {
    if names == [] then []
    else if names[0] in names[1..] then Distinct(names[1..])
    else [names[0]] + Distinct(names[1..])
  }

  /** Those of `names` for which membership in `these` is `keep`. */
  function Pick(names: seq<string>, these: seq<string>, keep: bool): (r: seq<string>)
    ensures NoDup(names) ==> NoDup(r)
    ensures forall n :: n in r <==> n in names && (n in these) == keep
  {
    if names == [] then []
    else if (names[0] in these) == keep then [names[0]] + Pick(names[1..], these, keep)
    else Pick(names[1..], these, keep)
  }

  predicate Before(a: string, b: string) {
    b != "" && (a == "" || a[0] < b[0] || (a[0] == b[0] && Before(a[1..], b[1..])))
  }

  function InsertName(n: string, names: seq<string>): (r: seq<string>)
    ensures forall m :: m in r <==> m == n || m in names
    ensures NoDup(names) && n !in names ==> NoDup(r)
  {
    if names == [] || Before(n, names[0]) then [n] + names
    else
      NoDupConcat([names[0]], names[1..]);
      assert [names[0]] + names[1..] == names;
      NoDupConcat([names[0]], InsertName(n, names[1..]));
      [names[0]] + InsertName(n, names[1..])
  }

  function SortNames(names: seq<string>): (r: seq<string>)
    ensures forall m :: m in r <==> m in names
    ensures NoDup(names) ==> NoDup(r)
  {
    if names == [] then [] else InsertName(names[0], SortNames(names[1..]))
  }

  const AREA_LINK_ORDER: seq<string> :=
    ["_VECTOR", "_SYS_PAGE0", "_USR_PAGE0", "_BIOS", "_CODE", "_DATA", "_WORK"]

  /** Every canonical name once: the known areas first, the rest alphabetically. */
  function OrderLinkAreaNames(names: seq<string>): (r: seq<string>)
    ensures NoDup(r)
    ensures forall n :: n in r <==> n in CanonicalNames(names)
  {
    var present := Distinct(CanonicalNames(names));
    assert NoDup(AREA_LINK_ORDER);
    var known, others := Pick(AREA_LINK_ORDER, present, true), SortNames(Pick(present, AREA_LINK_ORDER, false));
    NoDupConcat(known, others);
    known + others
  }
}
