/**
 The subset of CBOR (section 3 of RFC 8949) that attestation objects are written in,
 as a grammar with its encoder, and the walk that steps over one item.
 */
module Cbor {
  import opened Bytes
  import opened Wrappers

  datatype ParseError =
    | EndOfData | UnsupportedLength | UnsupportedType | MapExpected
    | NoAuthData | NoCredential | NoCoordinates | OutOfRange

  const UNSIGNED: nat := 0
  const NEGATIVE: nat := 1
  const BYTES: nat := 2
  const TEXT: nat := 3
  const ARRAY: nat := 4
  const MAP: nat := 5
  const SIMPLE: nat := 7

  /** Where a head keeps its argument: in the initial byte, or in that many bytes after it. */
  datatype Width = InHead | One | Two | Four {
    function Size(): nat {
      match this case InHead => 0 case One => 1 case Two => 2 case Four => 4
    }

    predicate Fits(argument: nat) {
      if InHead? then argument < 24 else argument < Pow256(Size())
    }

    function Info(argument: nat): (info: nat)
      requires Fits(argument)
      ensures info < 27
    {
      match this case InHead => argument case One => 24 case Two => 25 case Four => 26
    }
  }

  /** An item together with the encoder's choice of widths. */
  datatype Item =
    | Unsigned(width: Width, value: nat)
    | Negative(width: Width, value: nat)
    | Simple(width: Width, value: nat)
    | ByteString(width: Width, content: seq<Byte>)
    | TextString(width: Width, content: seq<Byte>)
    | Array(width: Width, items: seq<Item>)
    | Map(width: Width, pairs: seq<Pair>)
  {
    function Major(): (major: nat)
      ensures major < 8
    {
      match this
      case Unsigned(_, _) => UNSIGNED
      case Negative(_, _) => NEGATIVE
      case Simple(_, _) => SIMPLE
      case ByteString(_, _) => BYTES
      case TextString(_, _) => TEXT
      case Array(_, _) => ARRAY
      case Map(_, _) => MAP
    }

    function Argument(): nat {
      match this
      case ByteString(_, content) => |content|
      case TextString(_, content) => |content|
      case Array(_, items) => |items|
      case Map(_, pairs) => |pairs|
      case _ => value
    }

    predicate WellFormed() {
      && width.Fits(Argument())
      && (Array? ==> forall i :: 0 <= i < |items| ==> items[i].WellFormed())
      && (Map? ==> forall i :: 0 <= i < |pairs| ==> pairs[i].WellFormed())
    }
  }

  datatype Pair = Pair(key: Item, val: Item) {
    predicate WellFormed() {
      key.WellFormed() && val.WellFormed()
    }
  }

  predicate AllWellFormed(items: seq<Item>) {
    forall i :: 0 <= i < |items| ==> items[i].WellFormed()
  }

  predicate PairsWellFormed(pairs: seq<Pair>) {
    forall i :: 0 <= i < |pairs| ==> pairs[i].WellFormed()
  }

  function EncodeHead(major: nat, width: Width, argument: nat): seq<Byte>
    requires major < 8 && width.Fits(argument)
  {
    [32 * major + width.Info(argument)] + (if width.InHead? then [] else BeBytes(argument, width.Size()))
  }

  function Encode(item: Item): (s: seq<Byte>)
    requires item.WellFormed()
    ensures s != []
    decreases item, 1
  {
    EncodeHead(item.Major(), item.width, item.Argument()) + Body(item)
  }

  /** What follows an item's head. */
  function Body(item: Item): seq<Byte>
    requires item.WellFormed()
    decreases item, 0
  {
    match item
    case ByteString(_, content) => content
    case TextString(_, content) => content
    case Array(_, items) => EncodeAll(items)
    case Map(_, pairs) => EncodePairs(pairs)
    case _ => []
  }

  function EncodeAll(items: seq<Item>): seq<Byte>
    requires AllWellFormed(items)
    decreases items
  {
    if items == [] then [] else Encode(items[0]) + EncodeAll(items[1..])
  }

  function EncodePair(pair: Pair): seq<Byte>
    requires pair.WellFormed()
    decreases pair
  {
    Encode(pair.key) + Encode(pair.val)
  }

  function EncodePairs(pairs: seq<Pair>): seq<Byte>
    requires PairsWellFormed(pairs)
    decreases pairs
  {
    if pairs == [] then [] else EncodePair(pairs[0]) + EncodePairs(pairs[1..])
  }

  // ---- the walk ----

  function ByteAt(data: seq<Byte>, o: nat): Result<Byte, ParseError> {
    if o < |data| then Ok(data[o]) else Err(EndOfData)
  }

  /** An argument kept in the `n` bytes at `o`, and where it ends. */
  function UintAt(data: seq<Byte>, o: nat, n: nat): (r: Result<(nat, nat), ParseError>)
    ensures r.Ok? ==> r.value.1 == o + n
  {
    if o + n <= |data| then Ok((BeValue(data[o..o + n]), o + n)) else Err(EndOfData)
  }

  /** The argument that a head with this additional information has, and where the head ends. */
  function LengthAt(data: seq<Byte>, o: nat, info: nat): (r: Result<(nat, nat), ParseError>)
    ensures r.Ok? ==> r.value.1 >= o
  {
    if info < 24 then Ok((info, o))
    else if info == 24 then UintAt(data, o, 1)
    else if info == 25 then UintAt(data, o, 2)
    else if info == 26 then UintAt(data, o, 4)
    else Err(UnsupportedLength)
  }

  function Remaining(data: seq<Byte>, o: nat): nat {
    if o <= |data| then |data| - o else 0
  }

  /** Where the walk stands after one value that starts at `o`; strings may reach past the data. */
  function Skip(data: seq<Byte>, o: nat): (r: Result<nat, ParseError>)
    ensures r.Ok? ==> o < r.value && o < |data|
    decreases Remaining(data, o), 0, 0
  {
    var initial :- ByteAt(data, o);
    var major, info := initial / 32, initial % 32;
    if major == 6 then Err(UnsupportedType)
    else
      var (argument, p) :- LengthAt(data, o + 1, info);
      if major == BYTES || major == TEXT then Ok(p + argument)
      else if major == ARRAY then SkipMany(data, p, argument)
      else if major == MAP then SkipPairs(data, p, argument)
      else Ok(p)
  }

  function SkipMany(data: seq<Byte>, o: nat, n: nat): (r: Result<nat, ParseError>)
    ensures r.Ok? ==> r.value >= o
    decreases Remaining(data, o), 1, n
  {
    if n == 0 then Ok(o)
    else
      var next :- Skip(data, o);
      SkipMany(data, next, n - 1)
  }

  function SkipPair(data: seq<Byte>, o: nat): (r: Result<nat, ParseError>)
    ensures r.Ok? ==> r.value > o
    decreases Remaining(data, o), 1, 0
  {
    var next :- Skip(data, o);
    Skip(data, next)
  }

  function SkipPairs(data: seq<Byte>, o: nat, n: nat): (r: Result<nat, ParseError>)
    ensures r.Ok? ==> r.value >= o
    decreases Remaining(data, o), 2, n
  {
    if n == 0 then Ok(o)
    else
      var next :- SkipPair(data, o);
      SkipPairs(data, next, n - 1)
  }

  // ---- the walk steps over exactly one item ----

  /** `s` stands in `data` at `o`. */
  ghost predicate Has(data: seq<Byte>, o: nat, s: seq<Byte>) {
    o + |s| <= |data| && data[o..o + |s|] == s
  }

  lemma HasConcat(data: seq<Byte>, o: nat, s: seq<Byte>, t: seq<Byte>)
    ensures Has(data, o, s + t) <==> Has(data, o, s) && Has(data, o + |s|, t)
  {
    if o + |s + t| <= |data| {
      var whole := data[o..o + |s + t|];
      assert whole == data[o..o + |s|] + data[o + |s|..o + |s| + |t|];
      assert whole[..|s|] == data[o..o + |s|] && whole[|s|..] == data[o + |s|..o + |s| + |t|];
      assert (s + t)[..|s|] == s && (s + t)[|s|..] == t;
    }
  }

  lemma HasSlice(data: seq<Byte>, o: nat, end: nat)
    requires o <= end <= |data|
    ensures Has(data, o, data[o..end])
  {
  }

  /** A written head is read back: its byte first, then its argument. */
  lemma HeadRead(data: seq<Byte>, o: nat, major: nat, width: Width, argument: nat)
    requires major < 8 && width.Fits(argument)
    requires Has(data, o, EncodeHead(major, width, argument))
    ensures o < |data| && data[o] / 32 == major && data[o] % 32 == width.Info(argument)
    ensures LengthAt(data, o + 1, data[o] % 32) == Ok((argument, o + |EncodeHead(major, width, argument)|))
  {
    hide BeBytes, BeValue, Pow256;
    var tail := if width.InHead? then [] else BeBytes(argument, width.Size());
    HasConcat(data, o, [32 * major + width.Info(argument)], tail);
    assert data[o] == data[o..o + 1][0];
  }

  /** Completeness: one encoded item, however nested and whatever its widths, is stepped over exactly. */
  lemma {:induction false} SkipsEncoded(data: seq<Byte>, o: nat, item: Item)
    requires item.WellFormed() && Has(data, o, Encode(item))
    ensures Skip(data, o) == Ok(o + |Encode(item)|)
    decreases item
  {
    hide Has, EncodeHead, LengthAt, Width.Info;
    var head := EncodeHead(item.Major(), item.width, item.Argument());
    HasConcat(data, o, head, Body(item));
    HeadRead(data, o, item.Major(), item.width, item.Argument());
    if item.Array? {
      SkipsAllEncoded(data, o + |head|, item.items);
    } else if item.Map? {
      SkipsPairsEncoded(data, o + |head|, item.pairs);
    }
  }

  lemma {:induction false} SkipsAllEncoded(data: seq<Byte>, o: nat, items: seq<Item>)
    requires AllWellFormed(items) && Has(data, o, EncodeAll(items))
    ensures SkipMany(data, o, |items|) == Ok(o + |EncodeAll(items)|)
    decreases items
  {
    hide Has, Encode, Skip;
    if items != [] {
      HasConcat(data, o, Encode(items[0]), EncodeAll(items[1..]));
      SkipsEncoded(data, o, items[0]);
      SkipsAllEncoded(data, o + |Encode(items[0])|, items[1..]);
    }
  }

  lemma {:induction false} SkipsPairEncoded(data: seq<Byte>, o: nat, pair: Pair)
    requires pair.WellFormed() && Has(data, o, EncodePair(pair))
    ensures SkipPair(data, o) == Ok(o + |EncodePair(pair)|)
    decreases pair
  {
    hide Has, Encode, Skip;
    HasConcat(data, o, Encode(pair.key), Encode(pair.val));
    SkipsEncoded(data, o, pair.key);
    SkipsEncoded(data, o + |Encode(pair.key)|, pair.val);
  }

  lemma {:induction false} SkipsPairsEncoded(data: seq<Byte>, o: nat, pairs: seq<Pair>)
    requires PairsWellFormed(pairs) && Has(data, o, EncodePairs(pairs))
    ensures SkipPairs(data, o, |pairs|) == Ok(o + |EncodePairs(pairs)|)
    decreases pairs
  {
    hide Has, EncodePair, SkipPair;
    if pairs != [] {
      HasConcat(data, o, EncodePair(pairs[0]), EncodePairs(pairs[1..]));
      SkipsPairEncoded(data, o, pairs[0]);
      SkipsPairsEncoded(data, o + |EncodePair(pairs[0])|, pairs[1..]);
    }
  }

  /** Soundness: whatever is stepped over within the data is the encoding of one item. */
  lemma {:induction false} SkippedIsItem(data: seq<Byte>, o: nat) returns (item: Item)
    requires Skip(data, o).Ok? && Skip(data, o).value <= |data|
    ensures item.WellFormed() && Has(data, o, Encode(item)) && Skip(data, o) == Ok(o + |Encode(item)|)
    decreases Remaining(data, o), 0, 0
  {
    hide Has, EncodeHead, LengthAt, EncodeAll, EncodePairs;
    var major := data[o] / 32;
    var (argument, p) := LengthAt(data, o + 1, data[o] % 32).value;
    var width := WidthRead(data, o);
    var head := EncodeHead(major, width, argument);
    if major == UNSIGNED || major == NEGATIVE || major == SIMPLE {
      item := if major == UNSIGNED then Unsigned(width, argument)
              else if major == NEGATIVE then Negative(width, argument) else Simple(width, argument);
      assert Encode(item) == head;
    } else if major == BYTES || major == TEXT {
      var content := data[p..p + argument];
      item := if major == BYTES then ByteString(width, content) else TextString(width, content);
      HasSlice(data, p, p + argument);
      HasConcat(data, o, head, content);
    } else if major == ARRAY {
      var items := SkippedAreItems(data, p, argument);
      item := Array(width, items);
      HasConcat(data, o, head, EncodeAll(items));
    } else {
      var pairs := SkippedArePairs(data, p, argument);
      item := Map(width, pairs);
      HasConcat(data, o, head, EncodePairs(pairs));
    }
  }

  lemma {:induction false} SkippedAreItems(data: seq<Byte>, o: nat, n: nat) returns (items: seq<Item>)
    requires SkipMany(data, o, n).Ok? && SkipMany(data, o, n).value <= |data|
    ensures |items| == n && AllWellFormed(items) && Has(data, o, EncodeAll(items))
    ensures SkipMany(data, o, n) == Ok(o + |EncodeAll(items)|)
    decreases Remaining(data, o), 1, n
  {
    hide Encode, Skip;
    if n == 0 {
      items := [];
    } else {
      hide Has;
      var first := SkippedIsItem(data, o);
      var rest := SkippedAreItems(data, o + |Encode(first)|, n - 1);
      items := [first] + rest;
      assert items[1..] == rest;
      HasConcat(data, o, Encode(first), EncodeAll(rest));
    }
  }

  lemma {:induction false} SkippedArePairs(data: seq<Byte>, o: nat, n: nat) returns (pairs: seq<Pair>)
    requires SkipPairs(data, o, n).Ok? && SkipPairs(data, o, n).value <= |data|
    ensures |pairs| == n && PairsWellFormed(pairs) && Has(data, o, EncodePairs(pairs))
    ensures SkipPairs(data, o, n) == Ok(o + |EncodePairs(pairs)|)
    decreases Remaining(data, o), 2, n
  {
    hide Encode, Skip;
    if n == 0 {
      pairs := [];
    } else {
      hide Has;
      var key := SkippedIsItem(data, o);
      var middle := o + |Encode(key)|;
      var val := SkippedIsItem(data, middle);
      var rest := SkippedArePairs(data, middle + |Encode(val)|, n - 1);
      pairs := [Pair(key, val)] + rest;
      assert pairs[1..] == rest;
      HasConcat(data, o, Encode(key), Encode(val));
      HasConcat(data, o, EncodePair(pairs[0]), EncodePairs(rest));
    }
  }

  /** The head at `o`, written out. */
  lemma WidthRead(data: seq<Byte>, o: nat) returns (width: Width)
    requires o < |data| && LengthAt(data, o + 1, data[o] % 32).Ok?
    ensures var (argument, p) := LengthAt(data, o + 1, data[o] % 32).value;
            && width.Fits(argument) && p <= |data|
            && Has(data, o, EncodeHead(data[o] / 32, width, argument))
            && p == o + |EncodeHead(data[o] / 32, width, argument)|
  {
    hide Has, Pow256, BeValue, BeBytes;
    var info := data[o] % 32;
    width := if info < 24 then InHead else if info == 24 then One else if info == 25 then Two else Four;
    var (argument, p) := LengthAt(data, o + 1, info).value;
    var tail := data[o + 1..p];
    BeValueBound(tail);
    HasSlice(data, o, o + 1);
    HasSlice(data, o + 1, p);
    assert data[o..o + 1] == [data[o]];
    HasConcat(data, o, [data[o]], tail);
    if !width.InHead? {
      BeValueInjective(tail, BeBytes(argument, width.Size()));
    }
  }
}
