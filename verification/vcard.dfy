/**
 * The contact-card export of `downloadVCF` in script.js: one vCard 3.0 block
 * per participant, in list order. As the code writes it, every line ends in a
 * bare line feed and neither field is escaped (RFC 2426 asks for CRLF and for
 * escaping in text values; the export does neither).
 */
module Vcard {
  import opened Common
  import opened Documents

  /** The template's text before the name, between name and phone, and after the phone. */
  const Header: string := Line("BEGIN:VCARD") + Line("VERSION:3.0") + "FN:"
  const TelTag: string := "\n" + "TEL;TYPE=CELL:"
  const Footer: string := "\n" + Line("END:VCARD")

  /** What a card carries of a participant. */
  datatype Entry = Entry(name: string, phone: string)

  function EntryOf(p: Participant): Entry
  {
    Entry(p.name, p.phone)
  }

  function Entries(ps: seq<Participant>): (es: seq<Entry>)
    ensures |es| == |ps|
    ensures forall k :: 0 <= k < |ps| ==> es[k] == EntryOf(ps[k])
  {
    if ps == [] then [] else [EntryOf(ps[0])] + Entries(ps[1..])
  }

  /** The block the template literal produces for one participant. */
  function Card(p: Participant): string
  {
    Header + p.name + TelTag + p.phone + Footer
  }

  /** The whole export: the cards of all participants, concatenated in order. */
  function Vcf(ps: seq<Participant>): string
  {
    if ps == [] then "" else Card(ps[0]) + Vcf(ps[1..])
  }

  /** The export of a concatenated list is the concatenation of the exports. */
  lemma {:induction false} VcfAppend(a: seq<Participant>, b: seq<Participant>)
    ensures Vcf(a + b) == Vcf(a) + Vcf(b)
  {
    if a == [] {
      assert a + b == b;
    } else {
      assert (a + b)[0] == a[0] && (a + b)[1..] == a[1..] + b;
      VcfAppend(a[1..], b);
    }
  }

  /** The loop of `downloadVCF`: `vcfContent` starts empty and grows by one card per participant. */
  method BuildVcf(ps: seq<Participant>) returns (content: string)
    ensures content == Vcf(ps)
    ensures ps == [] ==> content == ""
  {
    content := "";
    var i := 0;
    while i < |ps|
      invariant 0 <= i <= |ps|
      invariant content == Vcf(ps[..i])
    {
      VcfAppend(ps[..i], [ps[i]]);
      assert ps[..i + 1] == ps[..i] + [ps[i]];
      content := content + Card(ps[i]);
      i := i + 1;
    }
    assert ps[..i] == ps;
  }

  // ---- Reading an export back ----

  /** Index of the first line feed of `s`, or `|s|` when there is none. */
  function LineLength(s: string): (n: nat)
    ensures n <= |s|
    ensures forall k :: 0 <= k < n ==> s[k] != '\n'
    ensures n < |s| ==> s[n] == '\n'
  {
    if s == [] || s[0] == '\n' then 0 else 1 + LineLength(s[1..])
  }

  /** `s` begins with `prefix`. */
  predicate StartsWith(s: string, prefix: string)
  {
    |prefix| <= |s| && s[..|prefix|] == prefix
  }

  /** Reads one card from the front of `s`; gives its entry and what follows it. */
  function DecodeCard(s: string): (r: Option<(Entry, string)>)
    ensures r.Some? ==> |r.value.1| < |s|
    ensures r.Some? ==> SingleLine(r.value.0.name) && SingleLine(r.value.0.phone)
  {
    if !StartsWith(s, Header) then None
    else
      var t := s[|Header|..];
      var n := LineLength(t);
      var u := t[n..];
      if !StartsWith(u, TelTag) then None
      else
        var v := u[|TelTag|..];
        var m := LineLength(v);
        var w := v[m..];
        if !StartsWith(w, Footer) then None
        else Some((Entry(t[..n], v[..m]), w[|Footer|..]))
  }

  /** Reads an export back into its entries, or fails on text that is not a sequence of cards. */
  function Decode(s: string): Option<seq<Entry>>
    decreases |s|
  {
    if s == [] then Some([])
    else match DecodeCard(s)
      case None => None
      case Some((e, rest)) =>
        match Decode(rest)
        case None => None
        case Some(es) => Some([e] + es)
  }

  /** A field the export can carry without breaking the card's line structure. */
  predicate SingleLine(f: string)
  {
    forall k :: 0 <= k < |f| ==> f[k] != '\n'
  }

  lemma LineLengthOf(line: string, rest: string)
    requires SingleLine(line)
    requires rest != [] && rest[0] == '\n'
    ensures LineLength(line + rest) == |line|
  {
    assert (line + rest)[|line|] == '\n';
  }

  /** One card followed by anything reads back as its entry and that remainder. */
  lemma CardReadsBack(p: Participant, rest: string)
    requires SingleLine(p.name) && SingleLine(p.phone)
    ensures DecodeCard(Card(p) + rest) == Some((EntryOf(p), rest))
  {
    var s := Card(p) + rest;
    assert s == Header + (p.name + (TelTag + (p.phone + (Footer + rest))));
    assert StartsWith(s, Header);
    var t := s[|Header|..];
    assert t == p.name + (TelTag + (p.phone + (Footer + rest)));
    LineLengthOf(p.name, TelTag + (p.phone + (Footer + rest)));
    var n := LineLength(t);
    assert t[..n] == p.name;
    var u := t[n..];
    assert u == TelTag + (p.phone + (Footer + rest));
    assert StartsWith(u, TelTag);
    var v := u[|TelTag|..];
    assert v == p.phone + (Footer + rest);
    LineLengthOf(p.phone, Footer + rest);
    var m := LineLength(v);
    assert v[..m] == p.phone;
    var w := v[m..];
    assert w == Footer + rest;
    assert StartsWith(w, Footer);
    assert w[|Footer|..] == rest;
  }

  /** Participants whose fields hold no line feed come back from their export, in order. */
  lemma {:induction false} VcfReadsBack(ps: seq<Participant>)
    requires forall k :: 0 <= k < |ps| ==> SingleLine(ps[k].name) && SingleLine(ps[k].phone)
    ensures Decode(Vcf(ps)) == Some(Entries(ps))
  {
    if ps != [] {
      CardReadsBack(ps[0], Vcf(ps[1..]));
      VcfReadsBack(ps[1..]);
    }
  }

  /**
   * Without escaping, a line feed anywhere in a name splits the card: the
   * export of such a participant does not read back as that participant.
   */
  lemma LineFeedInNameBreaksExport(p: Participant, k: nat)
    requires k < |p.name| && p.name[k] == '\n'
    ensures Decode(Vcf([p])) != Some(Entries([p]))
  {
    var s := Vcf([p]);
    assert [p][0] == p && [p][1..] == [];
    assert s == Card(p) + Vcf([]);
    match DecodeCard(s)
    case None =>
    case Some((e, rest)) =>
      if Decode(s) == Some(Entries([p])) {
        assert false;
      }
  }

  // ---- Line structure of the export ----

  /** A line as the export writes it: its text and a bare line feed. */
  function Line(text: string): string
  {
    text + "\n"
  }

  /**
   * A card is five lines, each ended by a bare line feed: the begin marker,
   * the version, the formatted name, the cell number and the end marker.
   */
  lemma CardLines(p: Participant)
    ensures Card(p) == Line("BEGIN:VCARD") + (Line("VERSION:3.0") + (Line("FN:" + p.name)
                       + (Line("TEL;TYPE=CELL:" + p.phone) + Line("END:VCARD"))))
  {
  }

  /** Card `k` of the export follows the cards of the participants before it and precedes those after it. */
  lemma VcfCardAt(ps: seq<Participant>, k: nat)
    requires k < |ps|
    ensures Vcf(ps) == Vcf(ps[..k]) + (Card(ps[k]) + Vcf(ps[k + 1..]))
  {
    var before, rest := ps[..k], ps[k..];
    assert ps == before + rest;
    VcfAppend(before, rest);
    assert rest[0] == ps[k] && rest[1..] == ps[k + 1..];
    assert Vcf(rest) == Card(ps[k]) + Vcf(ps[k + 1..]);
  }
}
