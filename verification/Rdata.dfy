/** Record data: printed by the UPDATE server, parsed by the DDNS updater. */
module Rdata {
  import opened Text

  const U16_MAX: nat := 0xFFFF

  datatype RData =
    | A(address: string)
    | AAAA(address: string)
    | TXT(segments: seq<string>)
    | CNAME(target: string)
    | MX(preference: nat, exchange: string)
    | SRV(priority: nat, weight: nat, port: nat, target: string)

  /** The library parsers: addresses to their canonical text, and which names are well formed. */
  datatype Syntax = Syntax(v4: string -> Option<string>, v6: string -> Option<string>, name: string -> bool)

  /** Canonical addresses parse to themselves. */
  ghost predicate Lawful(syn: Syntax) {
    && (forall s :: syn.v4(s).Some? ==> syn.v4(syn.v4(s).value) == syn.v4(s))
    && (forall s :: syn.v6(s).Some? ==> syn.v6(syn.v6(s).value) == syn.v6(s))
  }

  function TypeOf(v: RData): nat {
    match v
    case A(_) => 1
    case AAAA(_) => 28
    case TXT(_) => 16
    case CNAME(_) => 5
    case MX(_, _) => 15
    case SRV(_, _, _, _) => 33
  }

  /** `record_type_to_u16`. */
  function TypeNumber(rtype: string): nat {
    if rtype == "A" then 1
    else if rtype == "NS" then 2
    else if rtype == "CNAME" then 5
    else if rtype == "PTR" then 12
    else if rtype == "MX" then 15
    else if rtype == "TXT" then 16
    else if rtype == "AAAA" then 28
    else if rtype == "SRV" then 33
    else 0
  }

  /** The types and their numbers, and no others. */
  lemma TypeNumbers(rtype: string)
    ensures var names := ["A", "NS", "CNAME", "PTR", "MX", "TXT", "AAAA", "SRV"];
            var numbers := [1, 2, 5, 12, 15, 16, 28, 33];
            && (forall i | 0 <= i < 8 :: TypeNumber(names[i]) == numbers[i])
            && (TypeNumber(rtype) != 0 <==> rtype in names)
  {
    var names := ["A", "NS", "CNAME", "PTR", "MX", "TXT", "AAAA", "SRV"];
    assert names[0] == "A" && names[1] == "NS" && names[2] == "CNAME" && names[3] == "PTR";
    assert names[4] == "MX" && names[5] == "TXT" && names[6] == "AAAA" && names[7] == "SRV";
    assert TypeNumber(rtype) != 0 ==> rtype in names;
  }

  function EnsureFqdn(name: string): (r: string)
    ensures EndsWith(r, ".")
    ensures EndsWith(name, ".") <==> r == name
    ensures r == name || r == name + "."
  {
    if EndsWith(name, ".") then name else name + "."
  }

  /** What the wire types guarantee of a value: 16-bit numbers, well-formed names, canonical
      addresses. */
  ghost predicate WellFormed(syn: Syntax, v: RData) {
    match v
    case A(a) => syn.v4(a) == Some(a)
    case AAAA(a) => syn.v6(a) == Some(a)
    case TXT(_) => true
    case CNAME(n) => syn.name(EnsureFqdn(n))
    case MX(p, n) => p <= U16_MAX && syn.name(EnsureFqdn(n))
    case SRV(p, w, port, n) => p <= U16_MAX && w <= U16_MAX && port <= U16_MAX && syn.name(EnsureFqdn(n))
  }

  /** Fully qualified names, and text in a single character-string. */
  predicate Canonical(v: RData) {
    match v
    case A(_) => true
    case AAAA(_) => true
    case TXT(segments) => |segments| == 1
    case CNAME(n) => EndsWith(n, ".")
    case MX(_, n) => EndsWith(n, ".")
    case SRV(_, _, _, n) => EndsWith(n, ".")
  }

  function ParseName(syn: Syntax, s: string): (r: Option<string>)
    ensures r.Some? ==> EndsWith(r.value, ".") && syn.name(r.value)
  {
    var target := EnsureFqdn(s);
    if syn.name(target) then Some(target) else None
  }

  function ParseMx(syn: Syntax, s: string): (r: Option<RData>)
    ensures r.Some? ==> r.value.MX? && WellFormed(syn, r.value) && Canonical(r.value)
  {
    match SplitOnce(s, ' ')
    case None => None
    case Some((priority, exchange)) =>
      match (ParseInt(priority, U16_MAX), ParseName(syn, exchange))
      case (Some(p), Some(n)) => Some(MX(p, n))
      case _ => None
  }

  function ParseSrv(syn: Syntax, s: string): (r: Option<RData>)
    ensures r.Some? ==> r.value.SRV? && WellFormed(syn, r.value) && Canonical(r.value)
  {
    SrvOfParts(syn, SplitN(s, 4, ' '))
  }

  function SrvOfParts(syn: Syntax, parts: seq<string>): (r: Option<RData>)
    ensures r.Some? ==> r.value.SRV? && WellFormed(syn, r.value) && Canonical(r.value)
  {
    if |parts| != 4 then None
    else
      match (ParseInt(parts[0], U16_MAX), ParseInt(parts[1], U16_MAX), ParseInt(parts[2], U16_MAX),
             ParseName(syn, parts[3]))
      case (Some(priority), Some(weight), Some(port), Some(target)) => Some(SRV(priority, weight, port, target))
      case _ => None
  }

  function ParseRdata(syn: Syntax, rt: nat, s: string): Option<RData> {
    if rt == 1 then (var a := syn.v4(s); if a.Some? then Some(A(a.value)) else None)
    else if rt == 28 then (var a := syn.v6(s); if a.Some? then Some(AAAA(a.value)) else None)
    else if rt == 16 then Some(TXT([s]))
    else if rt == 5 then (var n := ParseName(syn, s); if n.Some? then Some(CNAME(n.value)) else None)
    else if rt == 15 then ParseMx(syn, s)
    else if rt == 33 then ParseSrv(syn, s)
    else None
  }

  /** Which texts are read as which values. */
  ghost predicate IsReadAs(syn: Syntax, rt: nat, s: string, v: RData) {
    match v
    case A(a) => rt == 1 && syn.v4(s) == Some(a)
    case AAAA(a) => rt == 28 && syn.v6(s) == Some(a)
    case TXT(segments) => rt == 16 && segments == [s]
    case CNAME(n) => rt == 5 && IsName(syn, s, n)
    case MX(p, n) => rt == 15 && ReadsMx(syn, s, p, n)
    case SRV(p, w, port, n) => rt == 33 && ReadsSrv(syn, s, p, w, port, n)
  }

  ghost predicate ReadsMx(syn: Syntax, s: string, p: nat, n: string) {
    exists a, b :: s == a + " " + b && ' ' !in a && Spells(a, p, 65535) && IsName(syn, b, n)
  }

  ghost predicate ReadsSrv(syn: Syntax, s: string, p: nat, w: nat, port: nat, n: string) {
    exists a, b, c, d :: IsSrvText(syn, s, a, b, c, d, p, w, port, n)
  }

  /** A well-formed name, with its final dot added where it lacks one. */
  predicate IsName(syn: Syntax, s: string, n: string) {
    syn.name(n) && (n == s || n == s + ".") && EndsWith(n, ".") && (EndsWith(s, ".") ==> n == s)
  }

  ghost predicate IsSrvText(
    syn: Syntax, s: string, a: string, b: string, c: string, d: string, p: nat, w: nat, port: nat, n: string)
  {
    && s == a + " " + (b + " " + (c + " " + d)) && ' ' !in a && ' ' !in b && ' ' !in c
    && Spells(a, p, 65535) && Spells(b, w, 65535) && Spells(c, port, 65535) && IsName(syn, d, n)
  }

  lemma NameIs(syn: Syntax, s: string, n: string)
    ensures ParseName(syn, s) == Some(n) <==> IsName(syn, s, n)
  {
    assert EndsWith(s + ".", ".") by {
      assert (s + ".")[|s|..] == ".";
    }
    assert |s + "."| == |s| + 1;
  }

  lemma MxIsReadAs(syn: Syntax, s: string, p: nat, n: string)
    ensures ParseMx(syn, s) == Some(MX(p, n)) <==> ReadsMx(syn, s, p, n)
  {
    if a, b :| s == a + " " + b && ' ' !in a && Spells(a, p, 65535) && IsName(syn, b, n) {
      SplitOnceAt(a, ' ', b);
      SpelledIffParsed(a, p, U16_MAX);
      NameIs(syn, b, n);
    }
    if ParseMx(syn, s) == Some(MX(p, n)) {
      var (a, b) := SplitOnce(s, ' ').value;
      SpelledIffParsed(a, p, U16_MAX);
      NameIs(syn, b, n);
      assert s == a + " " + b;
    }
  }

  lemma SrvPartsAre(syn: Syntax, parts: seq<string>, p: nat, w: nat, port: nat, n: string)
    requires |parts| == 4
    ensures SrvOfParts(syn, parts) == Some(SRV(p, w, port, n)) <==>
            && Spells(parts[0], p, 65535) && Spells(parts[1], w, 65535) && Spells(parts[2], port, 65535)
            && IsName(syn, parts[3], n)
  {
    SpelledIffParsed(parts[0], p, U16_MAX);
    SpelledIffParsed(parts[1], w, U16_MAX);
    SpelledIffParsed(parts[2], port, U16_MAX);
    NameIs(syn, parts[3], n);
  }

  lemma FourParts(s: string)
    requires |SplitN(s, 4, ' ')| == 4
    ensures var parts := SplitN(s, 4, ' ');
            && s == parts[0] + " " + (parts[1] + " " + (parts[2] + " " + parts[3]))
            && ' ' !in parts[0] && ' ' !in parts[1] && ' ' !in parts[2]
  {
    var (a, rest) := SplitOnce(s, ' ').value;
    assert SplitN(s, 4, ' ')[1..] == SplitN(rest, 3, ' ');
    var (b, last) := SplitOnce(rest, ' ').value;
    assert SplitN(rest, 3, ' ')[1..] == SplitN(last, 2, ' ');
    var (c, d) := SplitOnce(last, ' ').value;
    assert SplitN(last, 2, ' ') == [c, d];
  }

  lemma SrvIsReadAs(syn: Syntax, s: string, p: nat, w: nat, port: nat, n: string)
    ensures ParseSrv(syn, s) == Some(SRV(p, w, port, n)) <==> ReadsSrv(syn, s, p, w, port, n)
  {
    var parts := SplitN(s, 4, ' ');
    if a, b, c, d :| IsSrvText(syn, s, a, b, c, d, p, w, port, n) {
      SrvParts(a, b, c, d);
      SrvPartsAre(syn, [a, b, c, d], p, w, port, n);
    }
    if ParseSrv(syn, s) == Some(SRV(p, w, port, n)) {
      FourParts(s);
      SrvPartsAre(syn, parts, p, w, port, n);
      assert IsSrvText(syn, s, parts[0], parts[1], parts[2], parts[3], p, w, port, n);
    }
  }

  /** Exactly these texts are accepted for a mail exchanger, and read so. */
  lemma MxParsedIff(syn: Syntax, s: string, v: RData)
    ensures ParseRdata(syn, 15, s) == Some(v) <==> IsReadAs(syn, 15, s, v)
  {
    if v.MX? {
      MxIsReadAs(syn, s, v.preference, v.exchange);
    }
  }

  /** For a service. */
  lemma SrvParsedIff(syn: Syntax, s: string, v: RData)
    ensures ParseRdata(syn, 33, s) == Some(v) <==> IsReadAs(syn, 33, s, v)
  {
    if v.SRV? {
      SrvIsReadAs(syn, s, v.priority, v.weight, v.port, v.target);
    }
  }

  /** For every other type. */
  lemma OthersParsedIff(syn: Syntax, rt: nat, s: string, v: RData)
    requires rt != 15 && rt != 33
    ensures ParseRdata(syn, rt, s) == Some(v) <==> IsReadAs(syn, rt, s, v)
  {
    if v.CNAME? {
      NameIs(syn, s, v.target);
    }
  }

  function Join(segments: seq<string>): string {
    if segments == [] then [] else segments[0] + Join(segments[1..])
  }

  /** `rdata_to_string` on data of its own type. */
  function RdataToString(v: RData): string {
    match v
    case A(a) => a
    case AAAA(a) => a
    case TXT(segments) => Join(segments)
    case CNAME(n) => EnsureFqdn(n)
    case MX(p, n) => Decimal(p) + " " + EnsureFqdn(n)
    case SRV(p, w, port, n) => Decimal(p) + " " + (Decimal(w) + " " + (Decimal(port) + " " + EnsureFqdn(n)))
  }

  // -------------------------------------------------------------------------
  // Round trips
  // -------------------------------------------------------------------------

  function Qualified(v: RData): RData {
    match v
    case A(_) => v
    case AAAA(_) => v
    case TXT(segments) => TXT([Join(segments)])
    case CNAME(n) => CNAME(EnsureFqdn(n))
    case MX(p, n) => MX(p, EnsureFqdn(n))
    case SRV(p, w, port, n) => SRV(p, w, port, EnsureFqdn(n))
  }

  lemma NumberText(n: nat)
    requires n <= U16_MAX
    ensures ' ' !in Decimal(n)
    ensures ParseInt(Decimal(n), U16_MAX) == Some(n)
  {
    var d := Decimal(n);
    assert forall i | 0 <= i < |d| :: IsDigit(d[i]);
    ParseNumeral(d, U16_MAX);
  }

  lemma SrvParts(a: string, b: string, c: string, n: string)
    requires ' ' !in a && ' ' !in b && ' ' !in c
    ensures SplitN(a + " " + (b + " " + (c + " " + n)), 4, ' ') == [a, b, c, n]
  {
    SplitNAt(a, ' ', b + " " + (c + " " + n), 4);
    SplitNAt(b, ' ', c + " " + n, 3);
    SplitNAt(c, ' ', n, 2);
  }

  lemma SrvFields(syn: Syntax, p: nat, w: nat, port: nat, n: string)
    requires p <= U16_MAX && w <= U16_MAX && port <= U16_MAX && EndsWith(n, ".") && syn.name(n)
    ensures SrvOfParts(syn, [Decimal(p), Decimal(w), Decimal(port), n]) == Some(SRV(p, w, port, n))
  {
    NumberText(p);
    NumberText(w);
    NumberText(port);
  }

  lemma SrvParsed(syn: Syntax, p: nat, w: nat, port: nat, n: string)
    requires p <= U16_MAX && w <= U16_MAX && port <= U16_MAX && EndsWith(n, ".") && syn.name(n)
    ensures ParseSrv(syn, Decimal(p) + " " + (Decimal(w) + " " + (Decimal(port) + " " + n))) == Some(SRV(p, w, port, n))
  {
    NumberText(p);
    NumberText(w);
    NumberText(port);
    SrvParts(Decimal(p), Decimal(w), Decimal(port), n);
    SrvFields(syn, p, w, port, n);
  }

  lemma SrvText(syn: Syntax, p: nat, w: nat, port: nat, n: string)
    requires p <= U16_MAX && w <= U16_MAX && port <= U16_MAX && EndsWith(n, ".") && syn.name(n)
    ensures ParseRdata(syn, 33, Decimal(p) + " " + (Decimal(w) + " " + (Decimal(port) + " " + n))) ==
            Some(SRV(p, w, port, n))
  {
    SrvParsed(syn, p, w, port, n);
  }

  lemma SrvRoundTrip(syn: Syntax, p: nat, w: nat, port: nat, n: string)
    requires p <= U16_MAX && w <= U16_MAX && port <= U16_MAX && syn.name(EnsureFqdn(n))
    ensures ParseRdata(syn, 33, RdataToString(SRV(p, w, port, n))) == Some(SRV(p, w, port, EnsureFqdn(n)))
  {
    SrvText(syn, p, w, port, EnsureFqdn(n));
  }

  lemma MxText(syn: Syntax, p: nat, n: string)
    requires p <= U16_MAX && EndsWith(n, ".") && syn.name(n)
    ensures ParseRdata(syn, 15, Decimal(p) + " " + n) == Some(MX(p, n))
  {
    NumberText(p);
    SplitOnceAt(Decimal(p), ' ', n);
  }

  lemma MxRoundTrip(syn: Syntax, p: nat, n: string)
    requires p <= U16_MAX && syn.name(EnsureFqdn(n))
    ensures ParseRdata(syn, 15, RdataToString(MX(p, n))) == Some(MX(p, EnsureFqdn(n)))
  {
    MxText(syn, p, EnsureFqdn(n));
  }

  lemma JoinOne(segments: seq<string>)
    ensures Join([Join(segments)]) == Join(segments)
    ensures |segments| == 1 ==> segments == [Join(segments)]
  {
    var all := Join(segments);
    assert Join([all]) == all + [] == all;
    if |segments| == 1 {
      assert segments[1..] == [];
      assert all == segments[0] + [] == segments[0];
    }
  }

  lemma QualifiedIsItself(v: RData)
    ensures Qualified(v) == v <==> Canonical(v)
  {
    if v.TXT? {
      JoinOne(v.segments);
    }
  }

  lemma ParsedBack(syn: Syntax, v: RData)
    requires WellFormed(syn, v)
    ensures ParseRdata(syn, TypeOf(v), RdataToString(v)) == Some(Qualified(v))
  {
    if v.MX? {
      MxRoundTrip(syn, v.preference, v.exchange);
    } else if v.SRV? {
      SrvRoundTrip(syn, v.priority, v.weight, v.port, v.target);
    }
  }

  /** Printing a value and parsing it back gives the value with its names qualified and its text
      joined, whatever spaces the names hold; so the value itself comes back exactly when it is
      canonical, and text is never altered. */
  lemma RdataRoundTrip(syn: Syntax, v: RData)
    requires WellFormed(syn, v)
    ensures ParseRdata(syn, TypeOf(v), RdataToString(v)) == Some(Qualified(v))
    ensures ParseRdata(syn, TypeOf(v), RdataToString(v)) == Some(v) <==> Canonical(v)
    ensures v.TXT? ==> Join(Qualified(v).segments) == Join(v.segments)
  {
    ParsedBack(syn, v);
    QualifiedIsItself(v);
    if v.TXT? {
      JoinOne(v.segments);
    }
  }

  ghost predicate Sound(syn: Syntax, rt: nat, v: RData) {
    TypeOf(v) == rt && WellFormed(syn, v) && Canonical(v)
  }

  lemma ParsedIsSound(syn: Syntax, rt: nat, s: string)
    requires Lawful(syn) && ParseRdata(syn, rt, s).Some?
    ensures Sound(syn, rt, ParseRdata(syn, rt, s).value)
  {
    if rt == 15 {
      assert Sound(syn, 15, ParseMx(syn, s).value);
    } else if rt == 33 {
      assert Sound(syn, 33, ParseSrv(syn, s).value);
    } else {
      assert rt == 1 || rt == 28 || rt == 16 || rt == 5;
    }
  }

  /** What the updater accepts is canonical, so forwarding it again changes nothing. */
  lemma ParsedIsStable(syn: Syntax, rt: nat, s: string)
    requires Lawful(syn)
    requires ParseRdata(syn, rt, s).Some?
    ensures var v := ParseRdata(syn, rt, s).value;
            Canonical(v) && ParseRdata(syn, rt, RdataToString(v)) == Some(v)
  {
    var v := ParseRdata(syn, rt, s).value;
    ParsedIsSound(syn, rt, s);
    ParsedBack(syn, v);
    QualifiedIsItself(v);
  }
}
