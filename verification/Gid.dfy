/**
  Normalising the text form of a GID (exp/wordcount/util.py): the groups of a text, separated by ':' or '.', are
  read as hexadecimal numbers, written with at least four digits, and joined by ':'
  (the uncompressed text form of section 2.2 of RFC 4291). Texts are ASCII.
 */
module Gid {
  import opened Words
  import opened Sequences

  // ---------------------------------------------------------------------------
  // Digits
  // ---------------------------------------------------------------------------

  function DigitValue(c: char): (v: int)
    ensures -1 <= v < 16
  {
    if '0' <= c <= '9' then c as int - '0' as int
    else if 'a' <= c <= 'f' then c as int - 'a' as int + 10
    else if 'A' <= c <= 'F' then c as int - 'A' as int + 10
    else -1
  }

  predicate IsHex(s: string) {
    s != "" && forall i :: 0 <= i < |s| ==> DigitValue(s[i]) >= 0
  }

  function HexDigit(v: nat): (c: char)
    requires v < 16
    ensures DigitValue(c) == v && !('A' <= c <= 'F')
  {
    if v < 10 then '0' + v as char else 'a' + (v - 10) as char
  }

  /** The value of a string of hex digits. */
  function ParseHex(s: string): nat
    requires forall i :: 0 <= i < |s| ==> DigitValue(s[i]) >= 0
  {
    if s == "" then 0 else 16 * ParseHex(s[..|s| - 1]) + DigitValue(s[|s| - 1])
  }

  function HexString(v: nat): (s: string)
    ensures IsHex(s)
  {
    if v < 16 then [HexDigit(v)] else HexString(v / 16) + [HexDigit(v % 16)]
  }

  lemma {:induction false} HexRoundTrip(v: nat)
    ensures ParseHex(HexString(v)) == v
  {
    if v >= 16 {
      HexRoundTrip(v / 16);
      assert HexString(v)[..|HexString(v)| - 1] == HexString(v / 16);
    } else {
      assert HexString(v)[..0] == "";
    }
  }

  function Power16(k: nat): nat
  {
    if k == 0 then 1 else 16 * Power16(k - 1)
  }

  lemma {:induction false} HexLength(v: nat, k: nat)
    requires v < Power16(k) && k >= 1
    ensures |HexString(v)| <= k
  {
    if v >= 16 && k > 1 {
      HexLength(v / 16, k - 1);
    }
  }

  // ---------------------------------------------------------------------------
  // `int(s, 16)`
  // ---------------------------------------------------------------------------

  predicate IsSpace(c: char) {
    c == ' ' || '\t' <= c <= '\r'
  }

  function StripLeft(s: string): string
  {
    if s != "" && IsSpace(s[0]) then StripLeft(s[1..]) else s
  }

  function StripRight(s: string): string
  {
    if s != "" && IsSpace(s[|s| - 1]) then StripRight(s[..|s| - 1]) else s
  }

  /** Digits with single underscores between them. */
  function DigitsValue(s: string): Option<nat>
  {
    if s == "" || DigitValue(s[|s| - 1]) < 0 then None
    else if |s| == 1 then Some(DigitValue(s[0]))
    else
      match DigitsValue(if s[|s| - 2] == '_' then s[..|s| - 2] else s[..|s| - 1])
      case None => None
      case Some(v) => Some(16 * v + DigitValue(s[|s| - 1]))
  }

  /** An optional "0x", which one underscore may follow. */
  function Unprefixed(s: string): string
  {
    if |s| >= 2 && s[0] == '0' && (s[1] == 'x' || s[1] == 'X') then
      if |s| >= 3 && s[2] == '_' then s[3..] else s[2..]
    else s
  }

  function Unsigned(s: string): string
  {
    if s != "" && (s[0] == '+' || s[0] == '-') then s[1..] else s
  }

  /** None is the ValueError that Python raises. */
  function IntBase16(s: string): Option<int>
  {
    var t := StripRight(StripLeft(s));
    match DigitsValue(Unprefixed(Unsigned(t)))
    case None => None
    case Some(v) => Some(if t != "" && t[0] == '-' then -(v as int) else v)
  }

  lemma {:induction false} DigitsOfHex(s: string)
    requires IsHex(s)
    ensures DigitsValue(s) == Some(ParseHex(s))
  {
    if |s| == 1 {
      assert s[..0] == "";
    } else {
      assert DigitValue(s[|s| - 2]) >= 0;
      DigitsOfHex(s[..|s| - 1]);
    }
  }

  /** Plain digits mean what they spell. */
  lemma IntOfHex(s: string)
    requires IsHex(s)
    ensures IntBase16(s) == Some(ParseHex(s))
  {
    assert DigitValue(s[0]) >= 0 && DigitValue(s[|s| - 1]) >= 0;
    assert |s| >= 2 ==> DigitValue(s[1]) >= 0;
    DigitsOfHex(s);
  }

  /** Without a space at its ends and a minus sign in front a text is no negative number. */
  lemma NoSignNoNegative(s: string)
    requires s != "" && !IsSpace(s[0]) && !IsSpace(s[|s| - 1]) && s[0] != '-'
    ensures IntBase16(s).Some? ==> IntBase16(s).value >= 0
  {
  }

  // ---------------------------------------------------------------------------
  // One group
  // ---------------------------------------------------------------------------

  /** `hex(v)[2:]`: of a negative number's "-0x" only the "x" is left. */
  function HexText(v: int): string
  {
    if v >= 0 then HexString(v) else "x" + HexString(-v)
  }

  /** `s.zfill(width)` for a text without sign. */
  function ZFill(s: string, width: nat): (r: string)
    ensures |r| == if |s| < width then width else |s|
    decreases width - |s|
  {
    if |s| >= width then s else ZFill("0" + s, width)
  }

  function Normal(v: int): string
  {
    ZFill(HexText(v), 4)
  }

  lemma {:induction false} LeadingZero(s: string)
    requires IsHex(s)
    ensures IsHex("0" + s) && ParseHex("0" + s) == ParseHex(s)
  {
    var z := "0" + s;
    assert z[..|z| - 1] == "0" + s[..|s| - 1];
    if |s| == 1 {
      assert z[..1] == "0" && z[..1][..0] == "" && s[..0] == "";
    } else {
      LeadingZero(s[..|s| - 1]);
    }
  }

  lemma {:induction false} ZFillKeepsValue(s: string, width: nat)
    requires IsHex(s)
    ensures IsHex(ZFill(s, width)) && ParseHex(ZFill(s, width)) == ParseHex(s)
    decreases width - |s|
  {
    if |s| < width {
      LeadingZero(s);
      ZFillKeepsValue("0" + s, width);
    }
  }

  /** A number that is not negative is written in plain digits and read back. */
  lemma NormalReadsBack(v: nat)
    ensures IsHex(Normal(v)) && IntBase16(Normal(v)) == Some(v)
  {
    HexRoundTrip(v);
    ZFillKeepsValue(HexString(v), 4);
    IntOfHex(Normal(v));
  }

  /** Filled up with zeros, an "x" and digits stay so. */
  ghost predicate ZerosThenX(s: string)
  {
    && (forall i :: 0 <= i < |s| ==> DigitValue(s[i]) >= 0 || s[i] == 'x')
    && (exists i :: 0 <= i < |s| && s[i] == 'x')
  }

  lemma {:induction false} ZFillKeepsX(s: string, width: nat)
    requires ZerosThenX(s)
    ensures ZerosThenX(ZFill(s, width))
    decreases width - |s|
  {
    if |s| < width {
      var i :| 0 <= i < |s| && s[i] == 'x';
      assert ("0" + s)[i + 1] == 'x';
      ZFillKeepsX("0" + s, width);
    }
  }

  lemma NegativeHasX(v: int)
    requires v < 0
    ensures ZerosThenX(Normal(v))
  {
    assert HexText(v)[0] == 'x';
    ZFillKeepsX(HexText(v), 4);
  }

  /** A negative number is written with an "x" among its digits; what that reads as, if anything, is written otherwise. */
  lemma NegativeDoesNotReadBack(v: int)
    requires v < 0
    ensures IntBase16(Normal(v)).Some? ==> Normal(IntBase16(Normal(v)).value) != Normal(v)
  {
    var s := Normal(v);
    NegativeHasX(v);
    if IntBase16(s).Some? {
      var i :| 0 <= i < |s| && s[i] == 'x';
      assert DigitValue(s[0]) >= 0 || s[0] == 'x';
      assert DigitValue(s[|s| - 1]) >= 0 || s[|s| - 1] == 'x';
      NoSignNoNegative(s);
      NormalReadsBack(IntBase16(s).value);
      assert DigitValue(s[i]) < 0;
    }
  }

  const BOTH := {':', '.'}

  lemma NormalHasNoSeparator(v: int)
    ensures forall i :: 0 <= i < |Normal(v)| ==> Normal(v)[i] !in BOTH
  {
    if v >= 0 {
      NormalReadsBack(v);
    } else {
      NegativeHasX(v);
    }
  }

  // ---------------------------------------------------------------------------
  // Splitting and joining
  // ---------------------------------------------------------------------------

  /** `s.split(c)`, for any of several separators. */
  function Split(s: string, seps: set<char>): (parts: seq<string>)
    ensures parts != []
  {
    if s == "" then [""]
    else
      var rest := Split(s[1..], seps);
      if s[0] in seps then [""] + rest else [[s[0]] + rest[0]] + rest[1..]
  }

  /** `":".join(parts)`. */
  function Join(parts: seq<string>): string
  {
    if parts == [] then ""
    else if |parts| == 1 then parts[0]
    else parts[0] + ":" + Join(parts[1..])
  }

  /** The groups of a GID text. */
  function Groups(gid: string): seq<string>
  {
    Split(gid, BOTH)
  }

  /** The inner split. */
  function Pieces(part: string): (r: seq<string>)
    ensures r != []
  {
    Split(part, {'.'})
  }

  /** The groups of these ':' parts. */
  function PieceGroups(parts: seq<string>): seq<string>
  {
    Flatten(Mapped(Pieces, parts))
  }

  lemma PieceGroupsCons(first: string, parts: seq<string>)
    ensures PieceGroups([first] + parts) == Pieces(first) + PieceGroups(parts)
  {
    MappedCons(Pieces, first, parts);
    FlattenCons(Pieces(first), Mapped(Pieces, parts));
  }

  lemma PieceGroupsSnoc(parts: seq<string>, last: string)
    ensures PieceGroups(parts + [last]) == PieceGroups(parts) + Pieces(last)
  {
    MappedSnoc(Pieces, parts, last);
    FlattenSnoc(Mapped(Pieces, parts), Pieces(last));
  }

  lemma PieceGroupsNext(parts: seq<string>, k: nat)
    requires k < |parts|
    ensures PieceGroups(parts[..k + 1]) == PieceGroups(parts[..k]) + Pieces(parts[k])
  {
    PieceGroupsSnoc(parts[..k], parts[k]);
    assert parts[..k + 1] == parts[..k] + [parts[k]];
  }

  /** One more character in front changes the first piece of a part, or starts a new one. */
  lemma FirstPart(c: char, part: string, later: seq<string>)
    requires c != ':'
    ensures var pieces := Pieces(part) + later;
            Pieces([c] + part) + later == if c in BOTH then [""] + pieces else [[c] + pieces[0]] + pieces[1..]
  {
    assert ([c] + part)[1..] == part;
  }

  lemma ColonInFront(outer: seq<string>)
    ensures PieceGroups([""] + outer) == [""] + PieceGroups(outer)
  {
    PieceGroupsCons("", outer);
  }

  lemma OtherInFront(c: char, outer: seq<string>)
    requires c != ':' && outer != []
    ensures var groups := PieceGroups(outer);
            && groups != []
            && PieceGroups([[c] + outer[0]] + outer[1..])
               == if c in BOTH then [""] + groups else [[c] + groups[0]] + groups[1..]
  {
    assert outer == [outer[0]] + outer[1..];
    PieceGroupsCons(outer[0], outer[1..]);
    PieceGroupsCons([c] + outer[0], outer[1..]);
    FirstPart(c, outer[0], PieceGroups(outer[1..]));
  }

  /** Splitting at ':' and each part at '.' gives the groups. */
  lemma {:induction false} TwoLevels(gid: string)
    ensures PieceGroups(Split(gid, {':'})) == Groups(gid)
  {
    if gid == "" {
      ColonInFront([]);
      assert [""] + [] == [""];
    } else {
      TwoLevels(gid[1..]);
      if gid[0] == ':' {
        ColonInFront(Split(gid[1..], {':'}));
      } else {
        OtherInFront(gid[0], Split(gid[1..], {':'}));
      }
    }
  }

  lemma {:induction false} SplitAfter(a: string, seps: set<char>, t: string, c: char)
    requires c in seps && forall i :: 0 <= i < |a| ==> a[i] !in seps
    ensures Split(a + [c] + t, seps) == [a] + Split(t, seps)
  {
    if a == "" {
      assert "" + [c] + t == [c] + t && ([c] + t)[1..] == t;
    } else {
      SplitAfter(a[1..], seps, t, c);
      var s := a + [c] + t;
      assert s[1..] == a[1..] + [c] + t;
      assert [a[0]] + a[1..] == a;
    }
  }

  lemma {:induction false} SplitOne(a: string, seps: set<char>)
    requires forall i :: 0 <= i < |a| ==> a[i] !in seps
    ensures Split(a, seps) == [a]
  {
    if a != "" {
      SplitOne(a[1..], seps);
      assert [a[0]] + a[1..] == a;
    }
  }

  ghost predicate NoSeparators(groups: seq<string>)
  {
    forall i, j :: 0 <= i < |groups| && 0 <= j < |groups[i]| ==> groups[i][j] !in BOTH
  }

  /** Splitting undoes joining. */
  lemma {:induction false} SplitJoin(groups: seq<string>)
    requires groups != [] && NoSeparators(groups)
    ensures Groups(Join(groups)) == groups
  {
    if |groups| == 1 {
      SplitOne(groups[0], BOTH);
    } else {
      SplitJoin(groups[1..]);
      SplitAfter(groups[0], BOTH, Join(groups[1..]), ':');
      assert groups == [groups[0]] + groups[1..];
    }
  }

  lemma {:induction false} JoinAppend(a: seq<string>, b: seq<string>)
    requires a != [] && b != []
    ensures Join(a + b) == Join(a) + ":" + Join(b)
  {
    if |a| == 1 {
      assert (a + b)[1..] == b;
    } else {
      assert (a + b)[1..] == a[1..] + b;
      JoinAppend(a[1..], b);
    }
  }

  // ---------------------------------------------------------------------------
  // The normaliser
  // ---------------------------------------------------------------------------

  predicate AllInts(groups: seq<string>) {
    forall g :: g in groups ==> IntBase16(g).Some?
  }

  function ValueOf(groups: seq<string>, i: nat): int
    requires AllInts(groups) && i < |groups|
  {
    IntBase16(groups[i]).value
  }

  /** The normal form of a group that is a number. */
  function NormalOf(group: string): string
  {
    match IntBase16(group)
    case Some(v) => Normal(v)
    case None => group
  }

  function NormalAll(groups: seq<string>): (r: seq<string>)
    ensures |r| == |groups|
    ensures forall i :: 0 <= i < |groups| ==> r[i] == NormalOf(groups[i])
  {
    Mapped(NormalOf, groups)
  }

  /** All groups normalised and joined by ':', or an error if one is no number. */
  function Filled(gid: string): Option<string>
  {
    if AllInts(Groups(gid)) then Some(Join(NormalAll(Groups(gid)))) else None
  }

  /** The groups joined as far as they are numbers. */
  function JoinedNormals(groups: seq<string>): Option<string>
  {
    if AllInts(groups) then Some(Join(NormalAll(groups))) else None
  }

  /** The inner loop: these pieces are filled. */
  ghost predicate PiecesFilled(pieces: seq<string>, k: nat, filled: seq<string>)
  {
    k <= |pieces| && AllInts(pieces[..k]) && filled == NormalAll(pieces[..k])
  }

  lemma OneMorePiece(pieces: seq<string>, k: nat, filled: seq<string>, v: int)
    requires k < |pieces| && PiecesFilled(pieces, k, filled) && IntBase16(pieces[k]) == Some(v)
    ensures PiecesFilled(pieces, k + 1, filled + [Normal(v)])
  {
    assert pieces[..k + 1] == pieces[..k] + [pieces[k]];
    MappedSnoc(NormalOf, pieces[..k], pieces[k]);
  }

  /** The comprehension over one part; it raises at the first piece that is no number. */
  method FillPart(part: string) returns (newPart: Option<string>)
    ensures newPart == JoinedNormals(Pieces(part))
  {
    var pieces := Split(part, {'.'});
    var filled: seq<string> := [];
    for k := 0 to |pieces|
      invariant PiecesFilled(pieces, k, filled)
    {
      var v := IntBase16(pieces[k]);
      if v.None? {
        assert pieces[k] in pieces;
        return None;
      }
      OneMorePiece(pieces, k, filled, v.value);
      filled := filled + [Normal(v.value)];
    }
    assert pieces[..|pieces|] == pieces;
    newPart := Some(Join(filled));
  }

  /** One more part: joining the parts filled so far is joining their groups. */
  lemma JoinOneMore(before: seq<string>, pieces: seq<string>, newParts: seq<string>)
    requires AllInts(before) && AllInts(pieces) && pieces != []
    requires before == [] <==> newParts == []
    requires Join(newParts) == Join(NormalAll(before))
    ensures AllInts(before + pieces)
    ensures Join(newParts + [Join(NormalAll(pieces))]) == Join(NormalAll(before + pieces))
  {
    var part := Join(NormalAll(pieces));
    MappedAppend(NormalOf, before, pieces);
    if before == [] {
      assert newParts + [part] == [part];
      assert NormalAll(before) + NormalAll(pieces) == NormalAll(pieces);
    } else {
      JoinAppend(newParts, [part]);
      JoinAppend(NormalAll(before), NormalAll(pieces));
    }
  }

  /** The outer loop: these parts are filled, and joined they are their groups joined. */
  ghost predicate FilledSoFar(parts: seq<string>, k: nat, newParts: seq<string>)
  {
    && k <= |parts| && |newParts| == k
    && AllInts(PieceGroups(parts[..k]))
    && (k == 0 <==> PieceGroups(parts[..k]) == [])
    && Join(newParts) == Join(NormalAll(PieceGroups(parts[..k])))
  }

  lemma OneMorePart(parts: seq<string>, k: nat, newParts: seq<string>, part: string)
    requires k < |parts| && FilledSoFar(parts, k, newParts) && JoinedNormals(Pieces(parts[k])) == Some(part)
    ensures FilledSoFar(parts, k + 1, newParts + [part])
  {
    PieceGroupsNext(parts, k);
    JoinOneMore(PieceGroups(parts[..k]), Pieces(parts[k]), newParts);
  }

  lemma BadPart(gid: string, parts: seq<string>, k: nat)
    requires parts == Split(gid, {':'}) && k < |parts| && JoinedNormals(Pieces(parts[k])).None?
    ensures Filled(gid).None?
  {
    var g :| g in Pieces(parts[k]) && IntBase16(g).None?;
    TwoLevels(gid);
    assert g in Mapped(Pieces, parts)[k];
    FlattenHas(Mapped(Pieces, parts), g);
  }

  lemma NothingFilled(parts: seq<string>)
    ensures FilledSoFar(parts, 0, [])
  {
    assert PieceGroups(parts[..0]) == [];
  }

  lemma AllFilled(gid: string, parts: seq<string>, newParts: seq<string>)
    requires parts == Split(gid, {':'}) && FilledSoFar(parts, |parts|, newParts)
    ensures Filled(gid) == Some(Join(newParts))
  {
    TwoLevels(gid);
    assert parts[..|parts|] == parts;
  }

  /** `fill_gid`: an outer loop over the ':' parts, an inner one over their '.' pieces. */
  method FillGid(gid: string) returns (newGid: Option<string>)
    ensures newGid == Filled(gid)
  {
    var parts := Split(gid, {':'});
    var newParts: seq<string> := [];
    NothingFilled(parts);
    for k := 0 to |parts|
      invariant FilledSoFar(parts, k, newParts)
    {
      var newPart := FillPart(parts[k]);
      if newPart.None? {
        BadPart(gid, parts, k);
        return None;
      }
      OneMorePart(parts, k, newParts, newPart.value);
      newParts := newParts + [newPart.value];
    }
    AllFilled(gid, parts, newParts);
    newGid := Some(Join(newParts));
  }

  // ---------------------------------------------------------------------------
  // What normalising keeps
  // ---------------------------------------------------------------------------

  lemma FilledIsJoined(gid: string)
    requires AllInts(Groups(gid))
    ensures Groups(Filled(gid).value) == NormalAll(Groups(gid))
  {
    var groups := Groups(gid);
    forall i | 0 <= i < |groups|
      ensures forall j :: 0 <= j < |NormalAll(groups)[i]| ==> NormalAll(groups)[i][j] !in BOTH
    {
      NormalHasNoSeparator(ValueOf(groups, i));
    }
    SplitJoin(NormalAll(groups));
  }

  /** The normal form has as many groups, and each that is not negative has the value it had, whatever its spelling. */
  lemma FilledGroups(gid: string)
    requires Filled(gid).Some?
    ensures var groups, filled := Groups(gid), Groups(Filled(gid).value);
            && |filled| == |groups|
            && forall i :: 0 <= i < |groups| && ValueOf(groups, i) >= 0 ==>
                 IsHex(filled[i]) && IntBase16(filled[i]) == Some(ValueOf(groups, i))
  {
    FilledIsJoined(gid);
    forall i | 0 <= i < |Groups(gid)| && ValueOf(Groups(gid), i) >= 0
      ensures IsHex(NormalAll(Groups(gid))[i]) && IntBase16(NormalAll(Groups(gid))[i]) == Some(ValueOf(Groups(gid), i))
    {
      NormalReadsBack(ValueOf(Groups(gid), i));
    }
  }

  lemma NonNegativesStay(groups: seq<string>)
    requires AllInts(groups) && forall i :: 0 <= i < |groups| ==> ValueOf(groups, i) >= 0
    ensures AllInts(NormalAll(groups)) && NormalAll(NormalAll(groups)) == NormalAll(groups)
  {
    var again := NormalAll(groups);
    forall i | 0 <= i < |groups|
      ensures IntBase16(again[i]) == Some(ValueOf(groups, i)) && NormalOf(again[i]) == again[i]
    {
      NormalReadsBack(ValueOf(groups, i));
    }
  }

  lemma NegativeChanges(groups: seq<string>, i: nat)
    requires AllInts(groups) && i < |groups| && ValueOf(groups, i) < 0
    ensures AllInts(NormalAll(groups)) ==> NormalAll(NormalAll(groups)) != NormalAll(groups)
  {
    var again := NormalAll(groups);
    NegativeDoesNotReadBack(ValueOf(groups, i));
    if AllInts(again) {
      assert again[i] in again;
      assert NormalAll(again)[i] != again[i];
    }
  }

  /** Normalising twice is normalising once exactly when no group is negative. */
  lemma FilledTwice(gid: string)
    requires Filled(gid).Some?
    ensures Filled(Filled(gid).value) == Filled(gid)
            <==> forall i :: 0 <= i < |Groups(gid)| ==> ValueOf(Groups(gid), i) >= 0
  {
    var groups := Groups(gid);
    FilledIsJoined(gid);
    if i :| 0 <= i < |groups| && ValueOf(groups, i) < 0 {
      NegativeChanges(groups, i);
      if AllInts(NormalAll(groups)) {
        FilledIsJoined(Filled(gid).value);
      }
    } else {
      NonNegativesStay(groups);
    }
  }

  lemma {:induction false} JoinedLength(groups: seq<string>)
    requires groups != [] && forall i :: 0 <= i < |groups| ==> |groups[i]| == 4
    ensures |Join(groups)| == 5 * |groups| - 1
  {
    if |groups| > 1 {
      JoinedLength(groups[1..]);
    }
  }

  /** Sixteen-bit groups, however spelled, give five characters each less one: 39 exactly for eight groups. */
  lemma FilledLength(gid: string)
    requires Filled(gid).Some? && forall i :: 0 <= i < |Groups(gid)| ==> 0 <= ValueOf(Groups(gid), i) < 0x1_0000
    ensures |Filled(gid).value| == 5 * |Groups(gid)| - 1
    ensures |Filled(gid).value| == 39 <==> |Groups(gid)| == 8
  {
    var groups := Groups(gid);
    assert Power16(4) == 16 * Power16(3) == 16 * (16 * Power16(2));
    forall i | 0 <= i < |groups|
      ensures |NormalAll(groups)[i]| == 4
    {
      HexLength(ValueOf(groups, i), 4);
    }
    JoinedLength(NormalAll(groups));
  }

  lemma {:induction false} PowerPositive(k: nat)
    ensures Power16(k) >= 1
  {
    if k != 0 {
      PowerPositive(k - 1);
    }
  }

  lemma {:induction false} HexBound(s: string, k: nat)
    requires IsHex(s) && |s| <= k
    ensures ParseHex(s) < Power16(k)
  {
    if |s| > 1 {
      HexBound(s[..|s| - 1], k - 1);
    } else {
      assert s[..0] == "";
      PowerPositive(k - 1);
    }
  }

  /** So for groups of one to four hex digits, as the kernel hands them out. */
  lemma HexGroupsFill(gid: string)
    requires forall g :: g in Groups(gid) ==> IsHex(g) && |g| <= 4
    ensures Filled(gid).Some? && Filled(Filled(gid).value) == Filled(gid)
    ensures |Filled(gid).value| == 39 <==> |Groups(gid)| == 8
  {
    var groups := Groups(gid);
    assert Power16(4) == 16 * Power16(3) == 16 * (16 * Power16(2));
    forall g | g in groups
      ensures IntBase16(g).Some? && 0 <= IntBase16(g).value < 0x1_0000
    {
      IntOfHex(g);
      HexBound(g, 4);
    }
    FilledTwice(gid);
    FilledLength(gid);
  }

  // ---------------------------------------------------------------------------
  // The characters of the result
  // ---------------------------------------------------------------------------

  predicate LowerHex(c: char) {
    '0' <= c <= '9' || 'a' <= c <= 'f'
  }

  ghost predicate AllLower(s: string)
  {
    forall i :: 0 <= i < |s| ==> LowerHex(s[i])
  }

  lemma {:induction false} HexStringIsLower(v: nat)
    ensures AllLower(HexString(v))
  {
    if v >= 16 {
      HexStringIsLower(v / 16);
    }
  }

  lemma {:induction false} ZFillIsLower(s: string, width: nat)
    requires AllLower(s)
    ensures AllLower(ZFill(s, width))
    decreases width - |s|
  {
    if |s| < width {
      ZFillIsLower("0" + s, width);
    }
  }

  lemma NormalIsLower(v: nat)
    ensures AllLower(Normal(v))
  {
    HexStringIsLower(v);
    ZFillIsLower(HexString(v), 4);
  }

  lemma {:induction false} JoinedCharacters(groups: seq<string>)
    requires forall i :: 0 <= i < |groups| ==> AllLower(groups[i])
    ensures forall i :: 0 <= i < |Join(groups)| ==> LowerHex(Join(groups)[i]) || Join(groups)[i] == ':'
  {
    if |groups| > 1 {
      JoinedCharacters(groups[1..]);
    }
  }

  lemma {:induction false} ColonsOnly(groups: seq<string>)
    requires groups != [] && forall i :: 0 <= i < |groups| ==> AllLower(groups[i])
    ensures Split(Join(groups), {':'}) == groups
  {
    if |groups| == 1 {
      SplitOne(groups[0], {':'});
    } else {
      ColonsOnly(groups[1..]);
      SplitAfter(groups[0], {':'}, Join(groups[1..]), ':');
      assert groups == [groups[0]] + groups[1..];
    }
  }

  /** Without negative groups the result is lower-case hex digits and colons, its groups between colons, none below
      four digits. */
  lemma FilledCharacters(gid: string)
    requires Filled(gid).Some? && forall i :: 0 <= i < |Groups(gid)| ==> ValueOf(Groups(gid), i) >= 0
    ensures forall i :: 0 <= i < |Filled(gid).value| ==> LowerHex(Filled(gid).value[i]) || Filled(gid).value[i] == ':'
    ensures |Split(Filled(gid).value, {':'})| == |Groups(gid)|
    ensures forall i :: 0 <= i < |Groups(gid)| ==>
              && |Split(Filled(gid).value, {':'})[i]| >= 4
              && IntBase16(Split(Filled(gid).value, {':'})[i]) == Some(ValueOf(Groups(gid), i))
  {
    var groups, normals := Groups(gid), NormalAll(Groups(gid));
    forall i | 0 <= i < |groups|
      ensures AllLower(normals[i]) && |normals[i]| >= 4 && IntBase16(normals[i]) == Some(ValueOf(groups, i))
    {
      NormalIsLower(ValueOf(groups, i));
      NormalReadsBack(ValueOf(groups, i));
    }
    JoinedCharacters(normals);
    ColonsOnly(normals);
  }

  lemma DigitSpellings()
    ensures DigitsValue("1F") == DigitsValue("1f") == DigitsValue("1_f") == Some(31)
    ensures DigitsValue("") == DigitsValue("1__f") == DigitsValue("_1f") == DigitsValue("1g") == None
  {
    assert "1F"[..1] == "1f"[..1] == "1_f"[..1] == "1";
    assert DigitsValue("1") == Some(1);
    assert "1__f"[..2] == "1_" && "_1f"[..2] == "_1" && "_1"[..0] == "";
    assert DigitsValue("_1") == None && DigitsValue("1_") == None;
  }

  lemma NothingToStrip(s: string)
    requires s == "" || (!IsSpace(s[0]) && !IsSpace(s[|s| - 1]))
    ensures StripRight(StripLeft(s)) == s
  {
  }

  lemma SpacesStripped()
    ensures StripRight(StripLeft(" +1f ")) == "+1f"
  {
    assert " +1f "[1..] == "+1f " && "+1f "[..3] == "+1f";
    assert StripLeft(" +1f ") == StripLeft("+1f ") == "+1f ";
    assert StripRight("+1f ") == StripRight("+1f") == "+1f";
  }

  /** Spellings that Python reads as hexadecimal numbers. */
  lemma Spellings()
    ensures IntBase16("1F") == IntBase16("1f") == IntBase16("0x1f") == IntBase16("1_f") == IntBase16(" +1f ") == Some(31)
    ensures IntBase16("-1f") == Some(-31)
  {
    DigitSpellings();
    SpacesStripped();
    NothingToStrip("0x1f");
    NothingToStrip("-1f");
    assert "0x1f"[2..] == "1f" && "+1f"[1..] == "1f" && "-1f"[1..] == "1f";
  }

  /** Some that it refuses; among them the empty group of a compressed address. */
  lemma RefusedSpellings()
    ensures IntBase16("") == IntBase16("0x") == IntBase16("1__f") == IntBase16("_1f") == IntBase16("1g") == None
  {
    DigitSpellings();
    NothingToStrip("0x");
    NothingToStrip("1__f");
    assert "0x"[2..] == "";
  }
}
