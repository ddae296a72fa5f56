/** Payloads: sequences of entries, each a key, a size and a value. */
module Payloads {
  import opened ByteStreams
  import opened Wrappers

  type Key = k: nat | k < 0x1_0000_0000

  /** An entry with the bytes of its value. */
  datatype Entry = Entry(key: Key, value: Bytes) {
    predicate Fits() { |value| < 0x1_0000_0000 }
  }

  const HEADER_SIZE := 8

  function PrintHeader(key: Key, size: nat): (bs: Bytes)
    requires size < 0x1_0000_0000
    ensures |bs| == HEADER_SIZE
  {
    LimitOf4();
    PrintUInt(4, key) + PrintUInt(4, size)
  }

  /** The key and the size. */
  function ParseHeader(bs: Bytes): Parsed<(Key, nat)> {
    LimitOf4();
    match ParseUInt(4, bs)
    case Failed => Failed
    case Parsed(key, rest) =>
      match ParseUInt(4, rest)
      case Failed => Failed
      case Parsed(size, end) => Parsed((key, size), end)
  }

  lemma ParsePrintedHeader(key: Key, size: nat, rest: Bytes)
    requires size < 0x1_0000_0000
    ensures ParseHeader(PrintHeader(key, size) + rest) == Parsed((key, size), rest)
  {
    hide Limit, PrintUInt, ParseUInt;
    LimitOf4();
    assert PrintHeader(key, size) + rest == PrintUInt(4, key) + (PrintUInt(4, size) + rest);
    ParsePrintedUInt(4, key, PrintUInt(4, size) + rest);
    ParsePrintedUInt(4, size, rest);
  }

  lemma PrintParsedHeader(bs: Bytes)
    requires ParseHeader(bs).Parsed?
    ensures ParseHeader(bs).value.1 < 0x1_0000_0000
    ensures PrintHeader(ParseHeader(bs).value.0, ParseHeader(bs).value.1) + ParseHeader(bs).rest == bs
    ensures |ParseHeader(bs).rest| < |bs|
  {
    hide Limit, PrintUInt, ParseUInt;
    LimitOf4();
    var key := ParseUInt(4, bs);
    PrintParsedUInt(4, bs);
    PrintParsedUInt(4, key.rest);
    SizeBelowLimit(key.rest);
  }

  lemma SizeBelowLimit(bs: Bytes)
    requires ParseUInt(4, bs).Parsed?
    ensures ParseUInt(4, bs).value < 0x1_0000_0000 && |ParseUInt(4, bs).rest| <= |bs|
  {
    LimitOf4();
  }

  // ---------------------------------------------------------------- entries

  /** A whole entry, even if its value is empty. */
  function PrintRaw(e: Entry): (bs: Bytes)
    requires e.Fits()
    ensures |bs| == HEADER_SIZE + |e.value|
  {
    PrintHeader(e.key, |e.value|) + e.value
  }

  ghost predicate AllFit(es: seq<Entry>) { forall i :: 0 <= i < |es| ==> es[i].Fits() }

  function PrintRaws(es: seq<Entry>): Bytes
    requires AllFit(es)
  {
    if es == [] then [] else PrintRaw(es[0]) + PrintRaws(es[1..])
  }

  /** The entries of a byte string, if it is nothing but entries. */
  function ParseRaws(bs: Bytes): Option<seq<Entry>>
    decreases |bs|
  {
    if bs == [] then Some([])
    else
      match ParseHeader(bs)
      case Failed => None
      case Parsed(header, rest) =>
        if |rest| < header.1 then None
        else
          ShorterRest(bs);
          match ParseRaws(rest[header.1..])
          case None => None
          case Some(es) => Some([Entry(header.0, rest[..header.1])] + es)
  }

  lemma ShorterRest(bs: Bytes)
    requires ParseHeader(bs).Parsed?
    ensures |ParseHeader(bs).rest| < |bs|
  {
    PrintParsedHeader(bs);
  }

  /** An entry at the front is read, and then what follows it. */
  lemma ParseRawStep(e: Entry, bs: Bytes)
    requires e.Fits()
    ensures ParseRaws(PrintRaw(e) + bs)
         == match ParseRaws(bs) case None => None case Some(es) => Some([e] + es)
  {
    hide PrintHeader, ParseHeader;
    var all := PrintRaw(e) + bs;
    assert all == PrintHeader(e.key, |e.value|) + (e.value + bs);
    ParsePrintedHeader(e.key, |e.value|, e.value + bs);
    assert (e.value + bs)[|e.value|..] == bs && (e.value + bs)[..|e.value|] == e.value;
  }

  /** What the parser accepts is what printing its answer gives: it is the only byte string
      with these entries. */
  lemma {:induction false} PrintParsedRaws(bs: Bytes)
    requires ParseRaws(bs).Some?
    ensures AllFit(ParseRaws(bs).value) && PrintRaws(ParseRaws(bs).value) == bs
    decreases |bs|
  {
    hide PrintHeader, ParseHeader;
    if bs != [] {
      PrintParsedHeader(bs);
      var header, rest := ParseHeader(bs).value, ParseHeader(bs).rest;
      PrintParsedRaws(rest[header.1..]);
      var e, es := Entry(header.0, rest[..header.1]), ParseRaws(rest[header.1..]).value;
      assert PrintRaw(e) + rest[header.1..] == PrintHeader(header.0, header.1) + rest by {
        assert rest == rest[..header.1] + rest[header.1..];
      }
      assert ([e] + es)[1..] == es;
    }
  }

  /** Well-formed entries in front of a byte string: the parser reads them, then the others. */
  lemma {:induction false} ParseConcatenation(es: seq<Entry>, bs: Bytes)
    requires AllFit(es)
    ensures ParseRaws(PrintRaws(es) + bs)
         == match ParseRaws(bs) case None => None case Some(more) => Some(es + more)
  {
    hide ParseRaws, PrintRaw;
    if es == [] {
      assert PrintRaws(es) + bs == bs;
      assert forall more: seq<Entry> :: [] + more == more;
    } else {
      ParseConcatenation(es[1..], bs);
      ParseRawStep(es[0], PrintRaws(es[1..]) + bs);
      assert PrintRaws(es) + bs == PrintRaw(es[0]) + (PrintRaws(es[1..]) + bs);
      assert forall more :: [es[0]] + (es[1..] + more) == es + more;
    }
  }

  /** Printing then parsing gives the entries back. */
  lemma ParsePrintedRaws(es: seq<Entry>)
    requires AllFit(es)
    ensures ParseRaws(PrintRaws(es)) == Some(es)
  {
    hide PrintRaws;
    ParseConcatenation(es, []);
    assert PrintRaws(es) + [] == PrintRaws(es) && es + [] == es;
  }

  /** Two parts that parse, parse together as the one and then the other. */
  lemma ParseBoth(a: Bytes, b: Bytes)
    requires ParseRaws(a).Some?
    ensures ParseRaws(a + b)
         == match ParseRaws(b) case None => None case Some(more) => Some(ParseRaws(a).value + more)
  {
    PrintParsedRaws(a);
    ParseConcatenation(ParseRaws(a).value, b);
  }

  // ---------------------------------------------------------------- payloads

  datatype Payload = Empty | Cons(first: Entry, rest: Payload) {

    ghost predicate Fits() { Cons? ==> first.Fits() && rest.Fits() }

    /** The payload operator `+`. */
    function Plus(rhs: Payload): Payload {
      match this
      case Empty => rhs
      case Cons(e, tail) => Cons(e, tail.Plus(rhs))
    }

    /** The size that is declared: it counts a header for every entry. */
    function Size(): nat {
      match this
      case Empty => 0
      case Cons(e, tail) => HEADER_SIZE + |e.value| + tail.Size()
    }

    /** What is written: an entry with an empty value is left out. */
    function Print(): Bytes
      requires Fits()
    {
      match this
      case Empty => []
      case Cons(e, tail) => if e.value == [] then tail.Print() else PrintRaw(e) + tail.Print()
    }

    /** The entries that are written. */
    function Written(): seq<Entry> {
      match this
      case Empty => []
      case Cons(e, tail) => if e.value == [] then tail.Written() else [e] + tail.Written()
    }

    ghost predicate HasEmptyEntry() { Cons? && (first.value == [] || rest.HasEmptyEntry()) }
  }

  function Single(e: Entry): Payload { Cons(e, Empty) }

  /** The sum of two payloads prints as one after the other, and declares the sum of their sizes. */
  lemma {:induction false} PlusPrints(lhs: Payload, rhs: Payload)
    requires lhs.Fits() && rhs.Fits()
    ensures lhs.Plus(rhs).Fits() && lhs.Plus(rhs).Print() == lhs.Print() + rhs.Print()
    ensures lhs.Plus(rhs).Size() == lhs.Size() + rhs.Size()
    ensures lhs.Plus(rhs).Written() == lhs.Written() + rhs.Written()
  {
    hide PrintRaw;
    if lhs.Cons? {
      PlusPrints(lhs.rest, rhs);
      var e, bs := lhs.first, lhs.rest.Print();
      assert PrintRaw(e) + (bs + rhs.Print()) == (PrintRaw(e) + bs) + rhs.Print();
    }
  }

  /** Never more bytes are written than declared, and fewer exactly if an entry is empty. */
  lemma {:induction false} WrittenSize(p: Payload)
    requires p.Fits()
    ensures |p.Print()| <= p.Size()
    ensures |p.Print()| == p.Size() <==> !p.HasEmptyEntry()
  {
    if p.Cons? {
      WrittenSize(p.rest);
    }
  }

  lemma {:induction false} PrintIsPrintRaws(p: Payload)
    requires p.Fits()
    ensures AllFit(p.Written()) && p.Print() == PrintRaws(p.Written())
  {
    if p.Cons? {
      PrintIsPrintRaws(p.rest);
      if p.first.value != [] {
        assert p.Written()[1..] == p.rest.Written();
      }
    }
  }

  /** A printed payload parses as its entries that are not empty. */
  lemma ParsePrintedPayload(p: Payload)
    requires p.Fits()
    ensures ParseRaws(p.Print()) == Some(p.Written())
  {
    PrintIsPrintRaws(p);
    ParsePrintedRaws(p.Written());
  }

  // ---------------------------------------------------------------- handlers

  /** A map of handlers takes a record and an entry to the new record, or throws.  It leaves
      the record as it is for a key that has no handler. */
  type Handlers<!S> = (S, Entry) -> Option<S>

  function Handle<S>(handlers: Handlers<S>, s: S, es: seq<Entry>): Option<S> {
    if es == [] then Some(s)
    else
      match handlers(s, es[0])
      case None => None
      case Some(s') => Handle(handlers, s', es[1..])
  }

  /** Parsing succeeds exactly if the bytes are entries and no handler throws. */
  function ParsePayload<S>(handlers: Handlers<S>, s: S, bs: Bytes): Option<S> {
    match ParseRaws(bs)
    case None => None
    case Some(es) => Handle(handlers, s, es)
  }

  /** The loop handles each entry as it goes, before it knows of the later ones. */
  method ParseByteStream<S>(handlers: Handlers<S>, start: S, bytes: Bytes) returns (r: Option<S>)
    ensures r == ParsePayload(handlers, start, bytes)
  {
    var s, left := start, bytes;
    while left != []
      invariant ParsePayload(handlers, start, bytes) == ParsePayload(handlers, s, left)
      decreases |left|
    {
      var header := ParseHeader(left);
      if header == Failed {
        return None;
      }
      ShorterRest(left);
      var (key, size) := header.value;
      if |header.rest| < size {
        return None;
      }
      var e := Entry(key, header.rest[..size]);
      assert ParseRaws(left)
          == match ParseRaws(header.rest[size..]) case None => None case Some(es) => Some([e] + es);
      assert forall es :: ([e] + es)[1..] == es;
      match handlers(s, e) {
        case None => return None;
        case Some(next) => s, left := next, header.rest[size..];
      }
    }
    return Some(s);
  }

  /** The entries with a key of the set. */
  function Known(keys: set<Key>, es: seq<Entry>): seq<Entry> {
    if es == [] then []
    else if es[0].key in keys then [es[0]] + Known(keys, es[1..])
    else Known(keys, es[1..])
  }

  /** The handlers pass over every other key. */
  ghost predicate OnlyHandle<S(!new)>(handlers: Handlers<S>, keys: set<Key>) {
    forall s, e: Entry :: e.key !in keys ==> handlers(s, e) == Some(s)
  }

  /** Entries of other keys, wherever they are, change nothing. */
  lemma {:induction false} HandleKnown<S(!new)>(handlers: Handlers<S>, keys: set<Key>, s: S, es: seq<Entry>)
    requires OnlyHandle(handlers, keys)
    ensures Handle(handlers, s, es) == Handle(handlers, s, Known(keys, es))
  {
    if es != [] {
      var known := Known(keys, es);
      if es[0].key in keys {
        assert known[0] == es[0] && known[1..] == Known(keys, es[1..]);
        match handlers(s, es[0]) {
          case None =>
          case Some(s') => HandleKnown(handlers, keys, s', es[1..]);
        }
      } else {
        assert handlers(s, es[0]) == Some(s);
        HandleKnown(handlers, keys, s, es[1..]);
      }
    }
  }

  lemma {:induction false} KnownOfPart(keys: set<Key>, part: set<Key>, es: seq<Entry>)
    requires part <= keys
    ensures Known(part, Known(keys, es)) == Known(part, es)
  {
    if es != [] {
      KnownOfPart(keys, part, es[1..]);
    }
  }
}
