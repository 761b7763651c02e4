/** The Encapsulated header: what ci_request_t_pack prints and process_encapsulated reads. */
module Encapsulated {
  import opened Text
  import HeaderList

  datatype Kind = ReqHdr | ResHdr | ReqBody | ResBody | NullBody | OptBody

  /** An entity of a message: its kind and, for headers, its packed text. */
  datatype Part = Part(kind: Kind, text: string)

  /** An entity as the Encapsulated header lists it. */
  datatype Entity = Entity(kind: Kind, start: int)

  const INT_MAX: int := 0x7fff_ffff

  /** The conversion of a long to an int. */
  function ToInt(v: int): (r: int)
    ensures -INT_MAX - 1 <= r <= INT_MAX
    ensures -INT_MAX - 1 <= v <= INT_MAX ==> r == v
  {
    (v + 0x8000_0000) % 0x1_0000_0000 - 0x8000_0000
  }

  // ------------------------------------------------------------------ printing

  function Name(k: Kind): string
  {
    match k
    case ReqHdr => "req-hdr"
    case ResHdr => "res-hdr"
    case ReqBody => "req-body"
    case ResBody => "res-body"
    case NullBody => "null-body"
    case OptBody => "opt-body"
  }

  /** sizeofencaps. */
  function SizeOf(p: Part): nat
  {
    if p.kind == ReqHdr || p.kind == ResHdr then |p.text| else 0
  }

  /** The bytes of an entity in front of the body: those of a packed header, none for a body. */
  function Wire(p: Part): string
  {
    if p.kind == ReqHdr || p.kind == ResHdr then p.text else []
  }

  function Wires(parts: seq<Part>): string
  {
    if parts == [] then [] else Wires(parts[..|parts| - 1]) + Wire(parts[|parts| - 1])
  }

  /** Each entity at its byte offset in the encapsulated part of the message. */
  function Listed(parts: seq<Part>): seq<Entity>
  {
    seq(|parts|, i requires 0 <= i < |parts| => Entity(parts[i].kind, |Wires(parts[..i])|))
  }

  function Item(e: Entity): string
    requires e.start >= 0
  {
    Name(e.kind) + "=" + Dec(e.start)
  }

  predicate Printable(es: seq<Entity>) { forall i :: 0 <= i < |es| ==> 0 <= es[i].start <= INT_MAX }

  function Items(es: seq<Entity>): string
    requires Printable(es) && es != []
  {
    if |es| == 1 then Item(es[0]) else Item(es[0]) + ", " + Items(es[1..])
  }

  function Print(es: seq<Entity>): string
    requires Printable(es)
  {
    if es == [] then "Encapsulated: null-body=0" else "Encapsulated: " + Items(es)
  }

  /** The names on the wire. */
  lemma NamesAre()
    ensures Item(Entity(ReqHdr, 0)) == "req-hdr=0" && Item(Entity(ResHdr, 0)) == "res-hdr=0"
    ensures Item(Entity(ReqBody, 0)) == "req-body=0" && Item(Entity(ResBody, 0)) == "res-body=0"
    ensures Item(Entity(NullBody, 0)) == "null-body=0" && Item(Entity(OptBody, 0)) == "opt-body=0"
  {
    assert Dec(0) == "0";
  }

  lemma Glued(p: string, a: string, s: string, b: string, c: string)
    ensures p + (a + s + (b + s + c)) == p + a + s + b + s + c
  {
  }

  lemma ItemsAre(n: nat)
    ensures Item(Entity(ReqHdr, n)) == "req-hdr=" + Dec(n) && Item(Entity(ResHdr, n)) == "res-hdr=" + Dec(n)
    ensures Item(Entity(ResBody, n)) == "res-body=" + Dec(n)
  {
    hide Dec;
  }

  /** The header of a response modification, as in section 4.4.1 of RFC 3507. */
  lemma HeaderIs(l: nat, m: nat, n: nat)
    requires l <= m <= n <= INT_MAX
    ensures Print([Entity(ReqHdr, l), Entity(ResHdr, m), Entity(ResBody, n)]) ==
            "Encapsulated: " + ("req-hdr=" + Dec(l)) + ", " + ("res-hdr=" + Dec(m)) + ", " + ("res-body=" + Dec(n))
  {
    hide Dec, Name, Item;
    ItemsAre(l);
    ItemsAre(m);
    ItemsAre(n);
    ThreeItems(Entity(ReqHdr, l), Entity(ResHdr, m), Entity(ResBody, n));
  }

  lemma ThreeItems(a: Entity, b: Entity, c: Entity)
    requires Printable([a, b, c])
    ensures 0 <= a.start && 0 <= b.start && 0 <= c.start
    ensures Print([a, b, c]) == "Encapsulated: " + Item(a) + ", " + Item(b) + ", " + Item(c)
  {
    hide Item;
    assert [a, b, c][0] == a && [a, b, c][1] == b && [a, b, c][2] == c;
    assert [b, c][1..] == [c] && [a, b, c][1..] == [b, c];
    assert Items([c]) == Item(c);
    assert Items([b, c]) == Item(b) + ", " + Items([c]);
    assert Items([a, b, c]) == Item(a) + ", " + Items([b, c]);
    Glued("Encapsulated: ", Item(a), ", ", Item(b), Item(c));
  }

  // ------------------------------------------------------------------ parsing

  datatype Found = Found(kind: Kind, width: nat) | Unknown

  /** The tests of get_encaps_type, in their order. */
  function KindAt(s: string, pos: nat): Found
  {
    if MatchesAt(s, "req-hdr", pos) then Found(ReqHdr, 7)
    else if MatchesAt(s, "res-hdr", pos) then Found(ResHdr, 7)
    else if MatchesAt(s, "req-body", pos) then Found(ReqBody, 8)
    else if MatchesAt(s, "res-body", pos) then Found(ResBody, 8)
    else if MatchesAt(s, "null-body", pos) then Found(NullBody, 9)
    else Unknown
  }

  /** Skip the separators between entities. */
  function SkipSeparators(s: string, i: nat): (j: nat)
    requires i <= |s|
    ensures i <= j <= |s|
    decreases |s| - i
  {
    if i < |s| && (IsSpace(s[i]) || s[i] == ',') then SkipSeparators(s, i + 1) else i
  }

  /** The slots of req->entities. */
  const SLOTS: nat := 5

  /** EC_100 with the entities, EC_400, a number that would be read from behind the end of the line, or an
      entity that would be stored behind the last slot: the code looks for num > 5 only. */
  datatype Parsed = Parsed(es: seq<Entity>, hasBody: bool) | BadRequest | Beyond | Overrun

  predicate HasBody(es: seq<Entity>) { forall i :: 0 <= i < |es| ==> es[i].kind != NullBody }

  /** The loop of process_encapsulated from pos on. */
  function ParseFrom(s: string, pos: nat, es: seq<Entity>): (r: Parsed)
    requires pos <= |s|
    ensures r.Parsed? && |es| <= SLOTS ==> |r.es| <= SLOTS
    decreases |s| - pos
  {
    if Peek(s, pos) == '\0' then Parsed(es, HasBody(es))
    else
      match KindAt(s, pos)
      case Unknown => BadRequest
      case Found(k, w) =>
        if pos + w + 1 > |s| then Beyond
        else if |es| >= SLOTS then Overrun
        else
          var n := Strtol(s, pos + w + 1, 10);
          ParseFrom(s, SkipSeparators(s, n.end), es + [Entity(k, ToInt(n.value))])
  }

  /** process_encapsulated on a line that starts with "Encapsulated:". */
  function Parse(s: string): Parsed
    requires |s| >= 13
  {
    ParseFrom(s, SkipSpace(s, 13), [])
  }

  // ------------------------------------------------------------------ what is printed is read back

  lemma Differs(s: string, pos: nat, a: string, b: string, i: nat)
    requires MatchesAt(s, a, pos) && i < |a| && i < |b| && a[i] != b[i]
    ensures !MatchesAt(s, b, pos)
  {
    assert s[pos..pos + |a|][i] == s[pos + i];
    assert pos + |b| <= |s| ==> s[pos..pos + |b|][i] == s[pos + i];
  }

  /** Each name but that of an opt-body is recognised, and it is not. */
  lemma NameThere(s: string, pos: nat, k: Kind)
    requires MatchesAt(s, Name(k), pos)
    ensures KindAt(s, pos) == if k == OptBody then Unknown else Found(k, |Name(k)|)
  {
    hide MatchesAt;
    var name := Name(k);
    if k != ReqHdr {
      Differs(s, pos, name, "req-hdr", if k == ResHdr || k == ResBody then 2 else if k == ReqBody then 4 else 0);
    }
    if k != ReqHdr && k != ResHdr {
      Differs(s, pos, name, "res-hdr", if k == ReqBody then 2 else if k == ResBody then 4 else 0);
    }
    if k == ResBody || k == NullBody || k == OptBody {
      Differs(s, pos, name, "req-body", if k == ResBody then 2 else 0);
    }
    if k == NullBody || k == OptBody {
      Differs(s, pos, name, "res-body", 0);
    }
    if k == OptBody {
      Differs(s, pos, name, "null-body", 0);
    }
  }

  lemma ItemsStart(es: seq<Entity>)
    requires Printable(es) && es != []
    ensures |Items(es)| >= |Name(es[0].kind)| && Items(es)[..|Name(es[0].kind)|] == Name(es[0].kind)
    ensures |Items(es)| >= |Item(es[0])| && Items(es)[..|Item(es[0])|] == Item(es[0])
    ensures Items(es) != [] && !IsSpace(Items(es)[0]) && Items(es)[0] != ',' && Items(es)[0] != '\0'
    ensures |es| == 1 ==> Items(es) == Item(es[0])
    ensures |es| > 1 ==> |Items(es)| > |Item(es[0])| + 2 && Items(es)[|Item(es[0])|] == ',' && Items(es)[|Item(es[0])| + 1] == ' '
    ensures |es| > 1 ==> Printable(es[1..]) && Items(es)[|Item(es[0])| + 2..] == Items(es[1..])
  {
    hide Dec;
    if |es| > 1 {
      assert Items(es[1..]) != [];
    }
  }

  /** At pos the code reads e, up to end. */
  predicate Reads(s: string, pos: nat, e: Entity, end: nat)
  {
    && Peek(s, pos) != '\0' && KindAt(s, pos) == Found(e.kind, |Name(e.kind)|) && pos + |Name(e.kind)| + 1 <= |s|
    && Strtol(s, pos + |Name(e.kind)| + 1, 10) == Scanned(e.start, end)
  }

  lemma NameStart(k: Kind)
    ensures Name(k) != [] && Name(k)[0] != '\0'
  {
  }

  /** An item is read as it was printed. */
  lemma ItemRead(s: string, pos: nat, e: Entity)
    requires 0 <= e.start <= INT_MAX && e.kind != OptBody && MatchesAt(s, Item(e), pos)
    requires Peek(s, pos + |Item(e)|) == ',' || Peek(s, pos + |Item(e)|) == '\0'
    ensures Reads(s, pos, e, pos + |Item(e)|)
  {
    hide Strtol, KindAt, Name, Numeral, SkipSpace, DigitValue;
    var n, w := |Item(e)|, |Name(e.kind)|;
    assert s[pos..pos + n][0] == s[pos];
    NameStart(e.kind);
    assert MatchesAt(s, Name(e.kind), pos) by {
      assert s[pos..pos + w] == s[pos..pos + n][..w];
    }
    NameThere(s, pos, e.kind);
    var at := pos + w + 1;
    assert s[at..pos + n] == Dec(e.start) by {
      assert s[at..pos + n] == s[pos..pos + n][w + 1..];
    }
    CommaEnds();
    StrtolAt(s, at, e.start, 10);
  }

  lemma CommaEnds()
    ensures DigitValue(',') == DigitValue('\0') == 99
  {
  }

  /** One turn of the loop. */
  lemma ParseStep(s: string, pos: nat, acc: seq<Entity>, e: Entity, end: nat)
    requires pos <= |s| && Reads(s, pos, e, end) && end <= |s| && 0 <= e.start <= INT_MAX
    ensures ParseFrom(s, pos, acc) ==
            if |acc| >= SLOTS then Overrun else ParseFrom(s, SkipSeparators(s, end), acc + [e])
  {
    hide Strtol, KindAt, SkipSeparators;
    assert Entity(e.kind, ToInt(e.start)) == e;
  }

  lemma Separators(s: string, pos: nat, es: seq<Entity>)
    requires Printable(es) && es != [] && pos <= |s| && s[pos..] == Items(es)
    ensures pos + |Item(es[0])| <= |s|
    ensures SkipSeparators(s, pos + |Item(es[0])|) == if |es| == 1 then |s| else pos + |Item(es[0])| + 2
  {
    hide Items, Item, Name, Numeral;
    ItemsStart(es);
    var n, t := |Item(es[0])|, Items(es);
    if |es| > 1 {
      ItemsStart(es[1..]);
      assert t[n + 2] == t[n + 2..][0];
      assert s[pos + n] == t[n] && s[pos + n + 1] == t[n + 1] && s[pos + n + 2] == t[n + 2];
      assert SkipSeparators(s, pos + n + 2) == pos + n + 2;
    }
  }

  predicate NoOptBody(es: seq<Entity>) { forall i :: 0 <= i < |es| ==> es[i].kind != OptBody }

  lemma Kinds(es: seq<Entity>)
    requires es != []
    ensures NoOptBody(es) <==> es[0].kind != OptBody && NoOptBody(es[1..])
  {
    assert forall i :: 1 <= i < |es| ==> es[i] == es[1..][i - 1];
  }

  lemma Prefix(s: string, pos: nat, t: string, n: nat)
    requires pos <= |s| && s[pos..] == t && n <= |t|
    ensures MatchesAt(s, t[..n], pos) && Peek(s, pos + n) == Peek(t, n)
  {
    assert s[pos..pos + n] == t[..n];
  }

  /** What a printed list reads as behind the entities acc. */
  function ReadsAs(es: seq<Entity>, acc: seq<Entity>): Parsed
    decreases |es|
  {
    if es == [] then Parsed(acc, HasBody(acc))
    else if es[0].kind == OptBody then BadRequest
    else if |acc| >= SLOTS then Overrun
    else ReadsAs(es[1..], acc + [es[0]])
  }

  lemma {:induction false} ItemsParsed(s: string, pos: nat, es: seq<Entity>, acc: seq<Entity>)
    requires Printable(es) && es != [] && pos <= |s| && s[pos..] == Items(es)
    ensures ParseFrom(s, pos, acc) == ReadsAs(es, acc)
    decreases |es|
  {
    hide ParseFrom, Reads, SkipSeparators, Items, Item, HasBody, Strtol, KindAt, MatchesAt, Name, Numeral;
    var e, t, n := es[0], Items(es), |Item(es[0])|;
    ItemsStart(es);
    if e.kind == OptBody {
      Prefix(s, pos, t, |Name(OptBody)|);
      assert s[pos] == s[pos..][0];
      NameThere(s, pos, OptBody);
      ParseRefuses(s, pos, acc);
    } else {
      Prefix(s, pos, t, n);
      ItemRead(s, pos, e);
      Separators(s, pos, es);
      ParseStep(s, pos, acc, e, pos + n);
      if |es| == 1 {
        ParseEnd(s, acc + [e]);
        assert es[1..] == [];
      } else {
        assert s[pos + n + 2..] == t[n + 2..];
        ItemsParsed(s, pos + n + 2, es[1..], acc + [e]);
      }
    }
  }

  /** A list is read back exactly when it has no opt-body and fits the slots. */
  lemma {:induction false} ReadBack(es: seq<Entity>, acc: seq<Entity>)
    requires |acc| <= SLOTS
    ensures ReadsAs(es, acc).Parsed? <==> NoOptBody(es) && |acc| + |es| <= SLOTS
    ensures ReadsAs(es, acc).Parsed? ==> ReadsAs(es, acc) == Parsed(acc + es, HasBody(acc + es))
    ensures NoOptBody(es) && |acc| + |es| > SLOTS ==> ReadsAs(es, acc) == Overrun
    ensures !NoOptBody(es) && |acc| + |es| <= SLOTS + 1 ==> ReadsAs(es, acc) == BadRequest
    decreases |es|
  {
    hide HasBody, NoOptBody;
    if es == [] {
      ParseEnd([], acc);
      assert acc + es == acc;
    } else {
      Kinds(es);
      if es[0].kind != OptBody && |acc| < SLOTS {
        ReadBack(es[1..], acc + [es[0]]);
        assert acc + [es[0]] + es[1..] == acc + es;
      } else if |es| == 1 {
        ParseEnd([], acc);
        assert es[1..] == [];
      }
    }
  }

  lemma ParseRefuses(s: string, pos: nat, acc: seq<Entity>)
    requires pos <= |s| && Peek(s, pos) != '\0' && KindAt(s, pos) == Unknown
    ensures ParseFrom(s, pos, acc) == BadRequest
  {
  }

  lemma ParseEnd(s: string, es: seq<Entity>)
    ensures ParseFrom(s, |s|, es) == Parsed(es, HasBody(es)) && NoOptBody([])
  {
  }

  /** ROUND TRIP: the header of a list parses back to the same list, with hasbody set unless it lists a
      null-body, if and only if the list has no opt-body and at most five entities; more of them are
      stored behind the array. An empty list is read as one null-body at 0. */
  lemma ParsePrint(es: seq<Entity>)
    requires Printable(es)
    ensures es != [] ==> (Parse(Print(es)).Parsed? <==> NoOptBody(es) && |es| <= SLOTS)
    ensures es != [] && Parse(Print(es)).Parsed? ==> Parse(Print(es)) == Parsed(es, HasBody(es))
    ensures NoOptBody(es) && |es| > SLOTS ==> Parse(Print(es)) == Overrun
    ensures !NoOptBody(es) && |es| <= SLOTS + 1 ==> Parse(Print(es)) == BadRequest
    ensures es == [] ==> Parse(Print(es)) == Parsed([Entity(NullBody, 0)], false)
  {
    hide Parse, ReadsAs, HasBody;
    if es == [] {
      assert Dec(0) == "0";
      var l := [Entity(NullBody, 0)];
      assert Items(l) == "null-body" + "=" + "0";
      assert Print(es) == "Encapsulated: " + Items(l);
      Reparsed(l);
      ReadBack(l, []);
      assert [] + l == l;
      BodyKind([], l[0]);
    } else {
      Reparsed(es);
      ReadBack(es, []);
      assert [] + es == es;
    }
  }

  lemma Reparsed(es: seq<Entity>)
    requires Printable(es) && es != []
    ensures Parse("Encapsulated: " + Items(es)) == ReadsAs(es, [])
  {
    hide Items, Item, ParseFrom, ReadsAs;
    ItemsStart(es);
    var s := "Encapsulated: " + Items(es);
    assert s[14..] == Items(es) && s[13] == ' ' && s[14] == Items(es)[0];
    assert SkipSpace(s, 14) == 14;
    assert SkipSpace(s, 13) == 14;
    ItemsParsed(s, 14, es, []);
  }

  /** Six entities of any printable kind overrun the array. */
  lemma SixOverrun(e: Entity)
    requires 0 <= e.start <= INT_MAX && e.kind != OptBody
    ensures Parse(Print([e, e, e, e, e, e])) == Overrun
  {
    hide Parse, Print;
    ParsePrint([e, e, e, e, e, e]);
  }

  // ------------------------------------------------------------------ the code

  lemma NextStart(parts: seq<Part>, i: nat)
    requires i < |parts|
    ensures |Wires(parts[..i + 1])| == |Wires(parts[..i])| + SizeOf(parts[i])
  {
    assert parts[..i + 1][..i] == parts[..i];
  }

  /** The first half of ci_request_t_pack: the start of each entity is its byte offset. */
  method SetStarts(parts: seq<Part>) returns (es: seq<Entity>)
    requires |parts| <= 3
    ensures es == Listed(parts)
  {
    var start0, start1, start2 := 0, 0, 0;
    assert parts[..0] == [];
    if |parts| > 1 {
      NextStart(parts, 0);
      start1 := SizeOf(parts[0]);
      if |parts| > 2 {
        NextStart(parts, 1);
        start2 := SizeOf(parts[1]) + start1;
      }
    }
    var starts := [start0, start1, start2];
    es := seq(|parts|, i requires 0 <= i < |parts| => Entity(parts[i].kind, starts[i]));
  }

  lemma {:induction false} ItemsSnoc(es: seq<Entity>, e: Entity)
    requires Printable(es) && es != [] && 0 <= e.start <= INT_MAX
    ensures Printable(es + [e]) && Items(es + [e]) == Items(es) + ", " + Item(e)
  {
    var all := es + [e];
    hide Item;
    assert all[0] == es[0] && all[1..] == es[1..] + [e];
    if |es| == 1 {
      assert all[1..] == [e];
      assert Items([e]) == Item(e);
    } else {
      ItemsSnoc(es[1..], e);
    }
  }

  lemma OneItem(e: Entity)
    requires 0 <= e.start <= INT_MAX
    ensures Items([e]) == Item(e)
  {
  }

  lemma ItemShort(e: Entity)
    requires 0 <= e.start <= INT_MAX
    ensures |Item(e)| <= 20
  {
    assert Pow10(5) == 100_000;
    assert Pow10(10) == 10_000_000_000;
    NumeralLength(e.start, 10, 10);
  }

  /** The second half: the header is printed into a buffer of 512 bytes, which is always enough. */
  method PrintList(es: seq<Entity>) returns (text: string)
    requires Printable(es) && |es| <= 3
    ensures text == Print(es)
  {
    hide Item, Items;
    if |es| == 0 {
      return "Encapsulated: null-body=0";
    }
    OneItem(es[0]);
    text := "Encapsulated: ";
    var i := 0;
    while i < |es| && i < 3 && |text| < 512
      invariant i <= |es| && |text| <= 14 + 22 * i
      invariant Printable(es[..i]) && text == "Encapsulated: " + if i == 0 then [] else Items(es[..i])
    {
      ItemShort(es[i]);
      assert es[..i + 1] == es[..i] + [es[i]];
      assert i == 0 ==> es[..i + 1] == [es[0]];
      if i > 0 {
        ItemsSnoc(es[..i], es[i]);
      }
      text := text + (if i != 0 then ", " else "") + Item(es[i]);
      i := i + 1;
    }
    assert es[..i] == es;
  }

  /** A slot of req->entities: NULL or an entity. */
  datatype Slot = Null | Full(e: Entity)

  /** The slots after the entities es were stored one behind the other. */
  function Slots(es: seq<Entity>): (r: seq<Slot>)
    requires |es| <= SLOTS
    ensures |r| == SLOTS
  {
    seq(SLOTS, i requires 0 <= i < SLOTS => if i < |es| then Full(es[i]) else Null)
  }

  /** The loops over the entities stop inside the array. */
  predicate Terminated(slots: seq<Slot>) { Null in slots }

  lemma TerminatedIff(es: seq<Entity>)
    requires |es| <= SLOTS
    ensures Terminated(Slots(es)) <==> |es| < SLOTS
  {
    assert |es| < SLOTS ==> Slots(es)[|es|] == Null;
  }

  /** process_encapsulated. It stays in the array exactly when it does not overrun, and leaves it with a NULL at
      its end exactly when it has stored at most four entities. */
  method Process(line: string, slots: array<Slot>) returns (r: Parsed)
    requires |line| >= 13 && slots[..] == Slots([])
    modifies slots
    ensures r == Parse(line)
    ensures r.Parsed? ==> |r.es| <= SLOTS && slots[..] == Slots(r.es) && (Terminated(slots[..]) <==> |r.es| <= 4)
  {
    hide Strtol, KindAt, Slots, Terminated;
    assert slots.Length == |slots[..]| == SLOTS;
    var pos := 13;
    while pos < |line| && IsSpace(line[pos]) && line[pos] != '\0'
      invariant pos <= |line| && SkipSpace(line, pos) == SkipSpace(line, 13)
    {
      pos := pos + 1;
    }
    var es, hasBody := [], true;
    while Peek(line, pos) != '\0'
      invariant pos <= |line| && ParseFrom(line, pos, es) == Parse(line) && hasBody == HasBody(es)
      invariant |es| <= SLOTS && slots[..] == Slots(es)
      decreases |line| - pos
    {
      var found := KindAt(line, pos);
      if found == Unknown {
        return BadRequest;
      }
      if pos + found.width + 1 > |line| {
        return Beyond;
      }
      var n := Strtol(line, pos + found.width + 1, 10);
      if |es| >= SLOTS {
        return Overrun;
      }
      if found.kind == NullBody {
        hasBody := false;
      }
      var e := Entity(found.kind, ToInt(n.value));
      BodyKind(es, e);
      NextSlot(es, e);
      slots[|es|] := Full(e);
      es := es + [e];
      pos := Skip(line, n.end);
    }
    TerminatedIff(es);
    return Parsed(es, hasBody);
  }

  lemma NextSlot(es: seq<Entity>, e: Entity)
    requires |es| < SLOTS
    ensures Slots(es + [e]) == Slots(es)[|es| := Full(e)]
  {
  }

  /** The inner loop over the separators. */
  method Skip(line: string, from: nat) returns (pos: nat)
    requires from <= |line|
    ensures pos == SkipSeparators(line, from)
  {
    pos := from;
    while pos < |line| && (IsSpace(line[pos]) || line[pos] == ',') && line[pos] != '\0'
      invariant pos <= |line| && SkipSeparators(line, pos) == SkipSeparators(line, from)
    {
      pos := pos + 1;
    }
  }

  lemma BodyKind(es: seq<Entity>, e: Entity)
    ensures HasBody(es + [e]) <==> HasBody(es) && e.kind != NullBody
  {
    assert forall i :: 0 <= i < |es| ==> (es + [e])[i] == es[i];
    assert (es + [e])[|es|] == e;
  }

  // ------------------------------------------------------------------ starts and packing

  predicate IsHeader(k: Kind) { k == ReqHdr || k == ResHdr }

  /** Starts depend on the sizes of the headers only. */
  lemma SameStarts(a: seq<Part>, b: seq<Part>)
    requires |a| == |b| && forall i :: 0 <= i < |a| ==> a[i].kind == b[i].kind && SizeOf(a[i]) == SizeOf(b[i])
    ensures Listed(a) == Listed(b)
  {
    forall i | 0 <= i <= |a| ensures |Wires(a[..i])| == |Wires(b[..i])| {
      SameLength(a, b, i);
    }
  }

  lemma {:induction false} SameLength(a: seq<Part>, b: seq<Part>, i: nat)
    requires |a| == |b| && i <= |a| && forall j :: 0 <= j < |a| ==> a[j].kind == b[j].kind && SizeOf(a[j]) == SizeOf(b[j])
    ensures |Wires(a[..i])| == |Wires(b[..i])|
  {
    if i > 0 {
      SameLength(a, b, i - 1);
      NextStart(a, i - 1);
      NextStart(b, i - 1);
    }
  }

  /** A list for each header, no list twice. */
  ghost predicate Lists(kinds: seq<Kind>, lists: seq<HeaderList.Headers>)
    reads lists
  {
    && |kinds| == |lists| && (forall i :: 0 <= i < |lists| ==> lists[i].Valid())
    && forall i, j :: 0 <= i < j < |lists| ==> lists[i] != lists[j]
  }

  /** The text of the entities as it is now. */
  method Collect(kinds: seq<Kind>, lists: seq<HeaderList.Headers>) returns (parts: seq<Part>)
    requires |kinds| == |lists|
    ensures |parts| == |kinds| && forall i :: 0 <= i < |kinds| ==> parts[i] == Part(kinds[i], lists[i].buf)
  {
    parts := [];
    for i := 0 to |kinds|
      invariant |parts| == i && forall j :: 0 <= j < i ==> parts[j] == Part(kinds[j], lists[j].buf)
    {
      parts := parts + [Part(kinds[i], lists[i].buf)];
    }
  }

  /** The last loop of ci_request_t_pack. */
  method PackHeaders(kinds: seq<Kind>, lists: seq<HeaderList.Headers>)
    requires Lists(kinds, lists)
    modifies lists
    ensures Lists(kinds, lists)
    ensures forall i :: 0 <= i < |lists| ==> lists[i].lines == old(lists[i].lines) && |lists[i].buf| == |old(lists[i].buf)|
    ensures forall i :: 0 <= i < |lists| && IsHeader(kinds[i]) ==> (lists[i].packed <==> lists[i].lines != [])
  {
    hide HeaderList.Headers.Valid;
    for i := 0 to |kinds|
      invariant Lists(kinds, lists)
      invariant forall j :: 0 <= j < |lists| ==> lists[j].lines == old(lists[j].lines) && |lists[j].buf| == |old(lists[j].buf)|
      invariant forall j :: 0 <= j < i && IsHeader(kinds[j]) ==> (lists[j].packed <==> lists[j].lines != [])
    {
      if IsHeader(kinds[i]) {
        lists[i].Pack();
      }
    }
  }

  lemma NoOptBodyIn(kinds: seq<Kind>, es: seq<Entity>)
    requires |es| == |kinds| && forall i :: 0 <= i < |es| ==> es[i].kind == kinds[i]
    ensures NoOptBody(es) <==> OptBody !in kinds
  {
  }

  /** End to end: ci_request_t_pack takes the sizes of the header lists before it packs them, and still the
      message it lists up to three entities for is read with each entity at the byte offset it has in the
      packed text, unless it lists an opt-body, which is then refused. */
  method Announce(kinds: seq<Kind>, lists: seq<HeaderList.Headers>) returns (r: Parsed, parts: seq<Part>)
    requires Lists(kinds, lists) && |kinds| <= 3
    requires forall i :: 0 <= i < |lists| ==> |lists[i].buf| <= INT_MAX / 3
    modifies lists
    ensures Lists(kinds, lists) && |parts| == |kinds| && forall i :: 0 <= i < |kinds| ==> parts[i] == Part(kinds[i], lists[i].buf)
    ensures forall i :: 0 <= i < |lists| && IsHeader(kinds[i]) ==> (lists[i].packed <==> lists[i].lines != [])
    ensures kinds != [] && OptBody !in kinds ==> r == Parsed(Listed(parts), HasBody(Listed(parts)))
    ensures OptBody in kinds ==> r == BadRequest
    ensures kinds == [] ==> r == Parsed([Entity(NullBody, 0)], false)
  {
    hide Parse, Print, HasBody, HeaderList.Headers.Valid;
    var before := Collect(kinds, lists);
    var es := SetStarts(before);
    StartsShort(before);
    var line := PrintList(es);
    PackHeaders(kinds, lists);
    parts := Collect(kinds, lists);
    SameStarts(before, parts);
    ParsePrint(es);
    NoOptBodyIn(kinds, es);
    PrintLength(es);
    var slots := new Slot[SLOTS](_ => Null);
    assert slots[..] == Slots([]);
    r := Process(line, slots);
  }

  lemma StartsShort(parts: seq<Part>)
    requires |parts| <= 3 && forall i :: 0 <= i < |parts| ==> |parts[i].text| <= INT_MAX / 3
    ensures Printable(Listed(parts))
  {
    assert Wires([]) == [];
    hide Wires;
    assert parts[..0] == [];
    if |parts| > 1 {
      NextStart(parts, 0);
      if |parts| > 2 {
        NextStart(parts, 1);
      }
    }
    forall i | 0 <= i < |parts| ensures |Wires(parts[..i])| <= INT_MAX {
      assert i == 0 || i == 1 || i == 2;
    }
  }

  lemma PrintLength(es: seq<Entity>)
    requires Printable(es)
    ensures |Print(es)| >= 13
  {
  }
}
