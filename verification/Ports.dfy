/**
 * The port-range normaliser of the game filter (profiles.rs).
 */
module Ports {
  import opened Wrappers
  import opened Text

  datatype PortRange = PortRange(first: nat, last: nat)
  {
    predicate Valid() { 1 <= first <= last <= 65535 }
  }

  datatype Item = Skip | Bad | Ports(range: PortRange)

  /** What one comma-separated item means. */
  function ReadItem(raw: string): Item
  {
    var item := Trim(raw);
    if item == "" then Skip
    else
      var (a, b) := match SplitOnce(item, '-')
        case None => (item, item)
        case Some((a, b)) => (Trim(a), Trim(b));
      match (ParseU32(a), ParseU32(b))
      case (Some(a), Some(b)) =>
        if a == 0 || b == 0 || a > 65535 || b > 65535 || a > b then Bad else Ports(PortRange(a, b))
      case _ => Bad
  }

  /** The ranges a list of items denotes, if all of them are acceptable. */
  function Denoted(read: string -> Item, items: seq<string>): Option<seq<PortRange>>
    decreases |items|
  {
    if items == [] then Some([])
    else Extended(Denoted(read, items[..|items| - 1]), read(items[|items| - 1]))
  }

  function Extended(before: Option<seq<PortRange>>, item: Item): Option<seq<PortRange>>
  {
    match (before, item)
    case (None, _) => None
    case (_, Bad) => None
    case (Some(rs), Skip) => Some(rs)
    case (Some(rs), Ports(r)) => Some(rs + [r])
  }

  /** The port ranges a text denotes; a text that denotes none is rejected. */
  function Meaning(raw: string): Option<seq<PortRange>>
  {
    match Denoted(ReadItem, Split(raw, ','))
    case None => None
    case Some(rs) => if rs == [] then None else Some(rs)
  }

  function Print(r: PortRange): string
  {
    if r.first == r.last then ToDecimal(r.first) else ToDecimal(r.first) + "-" + ToDecimal(r.last)
  }

  function PrintAll(rs: seq<PortRange>): (r: seq<string>)
    ensures |r| == |rs|
  {
    seq(|rs|, i requires 0 <= i < |rs| => Print(rs[i]))
  }

  /** `validate_port_range`. */
  method ValidatePortRange(raw: string) returns (r: Option<string>)
    ensures r == match Meaning(raw) case None => None case Some(rs) => Some(Join(PrintAll(rs), ','))
  {
    var items := Split(raw, ',');
    var parts: seq<string> := [];
    ghost var ranges: seq<PortRange> := [];
    assert items[..0] == [] && PrintAll([]) == [];
    for i := 0 to |items|
      invariant Denoted(ReadItem, items[..i]) == Some(ranges) && parts == PrintAll(ranges)
    {
      DenotedStep(ReadItem, items, i);
      var item := ValidateItem(items[i]);
      match item
      case Skip =>
      case Bad =>
        Rejected(ReadItem, items, i + 1);
        return None;
      case Ports(range) =>
        parts := parts + [Print(range)];
        ranges := ranges + [range];
        assert PrintAll(ranges) == parts;
    }
    assert items[..|items|] == items;
    return if parts == [] then None else Some(Join(parts, ','));
  }

  /** The body of that loop for one item, up to what it pushes. */
  method ValidateItem(raw: string) returns (r: Item)
    ensures r == ReadItem(raw)
  {
    var item := Trim(raw);
    if item == "" {
      return Skip;
    }
    var a, b := item, item;
    var split := SplitOnce(item, '-');
    if split.Some? {
      a, b := Trim(split.value.0), Trim(split.value.1);
    }
    var first, last := ParseU32(a), ParseU32(b);
    if first.None? || last.None? {
      return Bad;
    }
    if first.value == 0 || last.value == 0 || first.value > 65535 || last.value > 65535 || first.value > last.value {
      return Bad;
    }
    return Ports(PortRange(first.value, last.value));
  }

  lemma DenotedStep(read: string -> Item, items: seq<string>, i: nat)
    requires i < |items|
    ensures Denoted(read, items[..i + 1]) == Extended(Denoted(read, items[..i]), read(items[i]))
  {
    assert items[..i + 1][..i] == items[..i] && items[..i + 1][i] == items[i];
  }

  /** One unacceptable item rejects the whole text. */
  lemma {:induction false} Rejected(read: string -> Item, items: seq<string>, i: nat)
    requires i <= |items|
    ensures Denoted(read, items[..i]).None? ==> Denoted(read, items).None?
    decreases |items| - i
  {
    if i < |items| {
      DenotedStep(read, items, i);
      Rejected(read, items, i + 1);
    } else {
      assert items[..i] == items;
    }
  }

  lemma DigitsAreBare(s: string)
    requires AllDigits(s) && s != ""
    ensures Trim(s) == s && ',' !in s && '-' !in s
  {
    TrimNothing(s);
  }

  lemma PairIsBare(a: string, b: string)
    requires AllDigits(a) && AllDigits(b) && a != "" && b != ""
    ensures var s := a + "-" + b;
      Trim(s) == s && s != "" && ',' !in s && SplitOnce(s, '-') == Some((a, b)) && Trim(a) == a && Trim(b) == b
  {
    DigitsAreBare(a);
    DigitsAreBare(b);
    SplitOnceFirst(a, b, '-');
    var s := a + "-" + b;
    assert s[0] == a[0] && s[|s| - 1] == b[|b| - 1];
    TrimNothing(s);
  }

  /** A printed range reads back as itself. */
  lemma ReadPrinted(r: PortRange)
    requires r.Valid()
    ensures ReadItem(Print(r)) == Ports(r) && ',' !in Print(r)
  {
    var a, b := ToDecimal(r.first), ToDecimal(r.last);
    ParsePrinted(r.first);
    ParsePrinted(r.last);
    if r.first == r.last {
      DigitsAreBare(a);
      SplitOnceNone(a, '-');
    } else {
      PairIsBare(a, b);
    }
  }

  lemma {:induction false} DenotedPrinted(read: string -> Item, rs: seq<PortRange>)
    requires forall i :: 0 <= i < |rs| ==> read(Print(rs[i])) == Ports(rs[i])
    ensures Denoted(read, PrintAll(rs)) == Some(rs)
    decreases |rs|
  {
    if rs != [] {
      var n := |rs| - 1;
      DenotedPrinted(read, rs[..n]);
      assert PrintAll(rs)[..n] == PrintAll(rs[..n]);
      assert rs == rs[..n] + [rs[n]];
    }
  }

  lemma {:induction false} DenotedAreValid(items: seq<string>)
    ensures Denoted(ReadItem, items).Some? ==>
      forall i :: 0 <= i < |Denoted(ReadItem, items).value| ==> Denoted(ReadItem, items).value[i].Valid()
    decreases |items|
  {
    if items != [] {
      DenotedAreValid(items[..|items| - 1]);
    }
  }

  /** The normalised text of an input that is accepted. */
  function Normalised(raw: string): string
    requires Meaning(raw).Some?
  {
    Join(PrintAll(Meaning(raw).value), ',')
  }

  /**
   * The normaliser keeps the meaning and is a fixed point: whatever text is
   * accepted, its ranges lie in 1..65535 in order, the normalised text denotes
   * exactly the same ranges, and normalising again changes nothing.
   */
  lemma NormaliserKeepsMeaning(raw: string)
    requires Meaning(raw).Some?
    ensures forall i :: 0 <= i < |Meaning(raw).value| ==> Meaning(raw).value[i].Valid()
    ensures Meaning(Normalised(raw)) == Meaning(raw)
    ensures Normalised(Normalised(raw)) == Normalised(raw)
  {
    var rs := Meaning(raw).value;
    DenotedAreValid(Split(raw, ','));
    forall i | 0 <= i < |rs|
      ensures ',' !in PrintAll(rs)[i] && ReadItem(Print(rs[i])) == Ports(rs[i])
    {
      ReadPrinted(rs[i]);
    }
    DenotedPrinted(ReadItem, rs);
    SplitJoin(PrintAll(rs), ',');
  }

  // ----------------------------------------------------- texts as written

  /** One item as somebody may write it: nothing but white space, a port, or two ports, with white space anywhere. */
  datatype WrittenItem =
    | Space(around: string)
    | Single(before: string, port: nat, after: string)
    | Span(before: string, first: nat, left: string, right: string, last: nat, after: string)

  predicate Spaced(w: WrittenItem)
  {
    match w
    case Space(around) => AllSpace(around)
    case Single(before, port, after) => AllSpace(before) && AllSpace(after) && port < 0x1_0000_0000
    case Span(before, first, left, right, last, after) =>
      && AllSpace(before) && AllSpace(left) && AllSpace(right) && AllSpace(after)
      && first < 0x1_0000_0000 && last < 0x1_0000_0000
  }

  function ItemText(w: WrittenItem): string
  {
    match w
    case Space(around) => around
    case Single(before, port, after) => before + ToDecimal(port) + after
    case Span(before, first, left, right, last, after) =>
      before + (ToDecimal(first) + left + "-" + (right + ToDecimal(last))) + after
  }

  /** What an item says: nothing, or the ports from one to another. */
  function ItemSays(w: WrittenItem): Option<PortRange>
  {
    match w
    case Space(_) => None
    case Single(_, port, _) => Some(PortRange(port, port))
    case Span(_, first, _, _, last, _) => Some(PortRange(first, last))
  }

  /** What an item that says `says` is read as. */
  function AsRead(says: Option<PortRange>): Item
  {
    match says
    case None => Skip
    case Some(r) => if r.Valid() then Ports(r) else Bad
  }

  lemma NoComma(s: string, c: char)
    requires AllSpace(s) || AllDigits(s)
    requires c == ',' || c == '-'
    ensures c !in s
  {
  }

  /** The two sides of a range, with the white space at its dash. */
  lemma SidesAreBare(a: string, left: string, right: string, b: string)
    requires AllDigits(a) && AllDigits(b) && a != "" && b != ""
    requires AllSpace(left) && AllSpace(right)
    ensures Trim(a + left) == a && Trim(right + b) == b
    ensures '-' !in a + left && ',' !in a + left && ',' !in right + b
  {
    NoComma(a, '-');
    NoComma(left, '-');
    NoComma(a, ',');
    NoComma(left, ',');
    NoComma(right, ',');
    NoComma(b, ',');
    TrimDrops("", a, left);
    assert "" + a + left == a + left;
    TrimDrops(right, b, "");
    assert right + b + "" == right + b;
  }

  lemma SpanIsRead(a: string, left: string, right: string, b: string)
    requires AllDigits(a) && AllDigits(b) && a != "" && b != ""
    requires AllSpace(left) && AllSpace(right)
    ensures var s := a + left + "-" + (right + b);
      && Bare(s) && ',' !in s && SplitOnce(s, '-') == Some((a + left, right + b))
      && Trim(a + left) == a && Trim(right + b) == b
  {
    SidesAreBare(a, left, right, b);
    SplitOnceFirst(a + left, right + b, '-');
    assert a + left + ['-'] + (right + b) == a + left + "-" + (right + b);
    var s := a + left + "-" + (right + b);
    assert s[0] == a[0] && s[|s| - 1] == b[|b| - 1];
  }

  /** An item is read as what it says; ports that are no range make it unacceptable. */
  lemma ItemIsRead(w: WrittenItem)
    requires Spaced(w)
    ensures ',' !in ItemText(w)
    ensures ReadItem(ItemText(w)) == AsRead(ItemSays(w))
  {
    match w
    case Space(around) =>
      NoComma(around, ',');
      TrimSpace(around);
    case Single(before, port, after) =>
      var s := ToDecimal(port);
      NoComma(before, ',');
      NoComma(s, ',');
      NoComma(s, '-');
      NoComma(after, ',');
      TrimDrops(before, s, after);
      SplitOnceNone(s, '-');
      ParsePrinted(port);
    case Span(before, first, left, right, last, after) =>
      NoComma(before, ',');
      NoComma(after, ',');
      SpanIsRead(ToDecimal(first), left, right, ToDecimal(last));
      TrimDrops(before, ToDecimal(first) + left + "-" + (right + ToDecimal(last)), after);
      ParsePrinted(first);
      ParsePrinted(last);
  }

  function ItemTexts(ws: seq<WrittenItem>): (r: seq<string>)
    ensures |r| == |ws|
  {
    seq(|ws|, i requires 0 <= i < |ws| => ItemText(ws[i]))
  }

  /** The ranges said, in order. */
  function Said(ws: seq<WrittenItem>): seq<PortRange>
  {
    if ws == [] then []
    else
      var n := |ws| - 1;
      match ItemSays(ws[n])
      case None => Said(ws[..n])
      case Some(r) => Said(ws[..n]) + [r]
  }

  predicate AllValid(rs: seq<PortRange>)
  {
    forall i :: 0 <= i < |rs| ==> rs[i].Valid()
  }

  lemma OneMoreValid(rs: seq<PortRange>, r: PortRange)
    ensures AllValid(rs + [r]) <==> AllValid(rs) && r.Valid()
  {
    if AllValid(rs + [r]) {
      assert (rs + [r])[|rs|] == r;
      assert forall i :: 0 <= i < |rs| ==> (rs + [r])[i] == rs[i];
    }
  }

  lemma {:induction false} ItemsAreRead(read: string -> Item, ws: seq<WrittenItem>)
    requires forall i :: 0 <= i < |ws| ==> read(ItemText(ws[i])) == AsRead(ItemSays(ws[i]))
    ensures Denoted(read, ItemTexts(ws)) == if AllValid(Said(ws)) then Some(Said(ws)) else None
    decreases |ws|
  {
    if ws != [] {
      var n := |ws| - 1;
      ItemsAreRead(read, ws[..n]);
      assert ItemTexts(ws)[..n] == ItemTexts(ws[..n]);
      if ItemSays(ws[n]).Some? {
        OneMoreValid(Said(ws[..n]), ItemSays(ws[n]).value);
      }
    }
  }

  /**
   * However the white space lies: a list of ports and port ranges, empty items
   * among them, is accepted exactly if it has some range and all of them lie in
   * 1..65535 in order, and it means these ranges.
   */
  lemma WrittenIsAccepted(ws: seq<WrittenItem>)
    requires ws != [] && forall i :: 0 <= i < |ws| ==> Spaced(ws[i])
    ensures Meaning(Join(ItemTexts(ws), ',')) ==
      if Said(ws) != [] && AllValid(Said(ws)) then Some(Said(ws)) else None
  {
    forall i | 0 <= i < |ws|
      ensures ',' !in ItemTexts(ws)[i] && ReadItem(ItemText(ws[i])) == AsRead(ItemSays(ws[i]))
    {
      ItemIsRead(ws[i]);
    }
    SplitJoin(ItemTexts(ws), ',');
    ItemsAreRead(ReadItem, ws);
  }

  /** `game_filter_ports`. */
  method GameFilterPorts(mode: string, tcp: string, udp: string) returns (t: string, u: string)
    ensures Meaning(t).Some? && Meaning(u).Some?
    ensures mode == "all" || mode == "tcp" ==>
      Meaning(t) == (if Meaning(tcp).Some? then Meaning(tcp) else Meaning("1024-65535"))
    ensures mode == "all" || mode == "udp" ==>
      Meaning(u) == (if Meaning(udp).Some? then Meaning(udp) else Meaning("1024-65535"))
    ensures mode != "all" && mode != "tcp" ==> t == "12"
    ensures mode != "all" && mode != "udp" ==> u == "12"
  {
    var tcpRange := ValidatePortRange(tcp);
    var udpRange := ValidatePortRange(udp);
    ConstantsAccepted();
    if Meaning(tcp).Some? {
      NormaliserKeepsMeaning(tcp);
    }
    if Meaning(udp).Some? {
      NormaliserKeepsMeaning(udp);
    }
    var tcp' := if tcpRange.Some? then tcpRange.value else "1024-65535";
    var udp' := if udpRange.Some? then udpRange.value else "1024-65535";
    t := if mode == "all" || mode == "tcp" then tcp' else "12";
    u := if mode == "all" || mode == "udp" then udp' else "12";
  }

  lemma ConstantsAccepted()
    ensures Meaning("1024-65535") == Some([PortRange(1024, 65535)])
    ensures Meaning("12") == Some([PortRange(12, 12)])
  {
    PrintedMeans(PortRange(1024, 65535));
    PrintedMeans(PortRange(12, 12));
    Print12();
    Print1024();
  }

  lemma PrintedMeans(r: PortRange)
    requires r.Valid()
    ensures Meaning(Print(r)) == Some([r])
  {
    ReadPrinted(r);
    SplitWhole(Print(r), ',');
    DenotedStep(ReadItem, [Print(r)], 0);
    assert [Print(r)][..1] == [Print(r)] && [Print(r)][..0] == [];
    assert [] + [r] == [r];
  }

  lemma Print12()
    ensures Print(PortRange(12, 12)) == "12"
  {
    assert ToDecimal(1) == "1";
  }

  lemma Print1024()
    ensures Print(PortRange(1024, 65535)) == "1024-65535"
  {
    assert ToDecimal(1) == "1";
    assert ToDecimal(10) == "10";
    assert ToDecimal(102) == "102";
    assert ToDecimal(1024) == "1024";
    assert ToDecimal(6) == "6";
    assert ToDecimal(65) == "65";
    assert ToDecimal(655) == "655";
    assert ToDecimal(6553) == "6553";
    assert ToDecimal(65535) == "65535";
  }
}
