/** The pieces of Python string formatting that the saved-connection format
    is built from (decimal integers, tuple repr, `str.join`, `str.split`,
    `str.replace`), with the parsing direction and its round-trip lemmas. */
module Text {
  import opened Outcomes

  predicate IsDigit(c: char) { '0' <= c <= '9' }

  predicate AllDigits(s: string) { forall i :: 0 <= i < |s| ==> IsDigit(s[i]) }

  function DigitChar(d: nat): (c: char)
    requires d < 10
    ensures IsDigit(c)
  {
    ['0', '1', '2', '3', '4', '5', '6', '7', '8', '9'][d]
  }

  function DigitValue(c: char): (d: nat)
    requires IsDigit(c)
    ensures d < 10
  {
    (c as int) - ('0' as int)
  }

  /** Python `str(n)` for a non-negative integer. */
  function NatToString(n: nat): (s: string)
    ensures |s| >= 1 && AllDigits(s)
  {
    if n < 10 then [DigitChar(n)] else NatToString(n / 10) + [DigitChar(n % 10)]
  }

  /** Python `str(i)` for any integer. */
  function IntToString(i: int): string
  {
    if i < 0 then "-" + NatToString(-i) else NatToString(i)
  }

  /** Python `int(s)` for a string of decimal digits. */
  function ParseNat(s: string): nat
    requires AllDigits(s)
  {
    if s == [] then 0 else 10 * ParseNat(s[..|s| - 1]) + DigitValue(s[|s| - 1])
  }

  lemma {:induction false} DigitRoundTrip(d: nat)
    requires d < 10
    ensures DigitValue(DigitChar(d)) == d
  {
  }

  /** Printing a count in decimal and reading it back gives the count. */
  lemma {:induction false} NatRoundTrip(n: nat)
    ensures ParseNat(NatToString(n)) == n
  {
    var s := NatToString(n);
    if n < 10 {
      DigitRoundTrip(n);
      assert s[..0] == [];
    } else {
      NatRoundTrip(n / 10);
      DigitRoundTrip(n % 10);
      assert s[..|s| - 1] == NatToString(n / 10);
    }
  }

  /** Python `sep.join(parts)`. */
  function JoinWith(sep: string, parts: seq<string>): string
  {
    if parts == [] then ""
    else if |parts| == 1 then parts[0]
    else parts[0] + sep + JoinWith(sep, parts[1..])
  }

  /** First position of `c` in `s`. */
  function FirstIndex(c: char, s: string): (r: Option<nat>)
    ensures r.Some? ==> r.value < |s| && s[r.value] == c && c !in s[..r.value]
    ensures r.None? ==> c !in s
  {
    if s == [] then None
    else if s[0] == c then Some(0)
    else match FirstIndex(c, s[1..])
      case None => None
      case Some(i) => assert s[..i + 1] == [s[0]] + s[1..][..i]; Some(i + 1)
  }

  /** Last position of `c` in `s`. */
  function LastIndex(c: char, s: string): (r: Option<nat>)
    ensures r.Some? ==> r.value < |s| && s[r.value] == c && c !in s[r.value + 1..]
    ensures r.None? ==> c !in s
  {
    if s == [] then None
    else if s[|s| - 1] == c then Some(|s| - 1)
    else match LastIndex(c, s[..|s| - 1])
      case None => assert s == s[..|s| - 1] + [s[|s| - 1]]; None
      case Some(i) => assert s[i + 1..] == s[..|s| - 1][i + 1..] + [s[|s| - 1]]; Some(i)
  }

  /** Python `s.split(c)` for a one-character separator. */
  function SplitOn(c: char, s: string): (r: seq<string>)
    ensures |r| >= 1
    decreases |s|
  {
    match FirstIndex(c, s)
    case None => [s]
    case Some(i) => [s[..i]] + SplitOn(c, s[i + 1..])
  }

  /** Splitting a joined string on a separator that none of the parts holds
      gives the parts back. */
  lemma {:induction false} SplitJoin(c: char, parts: seq<string>)
    requires |parts| >= 1
    requires forall k :: 0 <= k < |parts| ==> c !in parts[k]
    ensures SplitOn(c, JoinWith([c], parts)) == parts
  {
    if |parts| > 1 {
      var p0, rest := parts[0], JoinWith([c], parts[1..]);
      var s := p0 + [c] + rest;
      assert s == JoinWith([c], parts);
      assert s[..|p0|] == p0 && s[|p0|] == c;
      assert FirstIndex(c, s) == Some(|p0|);
      assert s[|p0| + 1..] == rest;
      SplitJoin(c, parts[1..]);
    }
  }

  /** `s.replace('(', '[').replace(')', ']')`. */
  function Bracketize(s: string): (r: string)
    ensures |r| == |s|
    ensures forall i :: 0 <= i < |s| ==>
              r[i] == (if s[i] == '(' then '[' else if s[i] == ')' then ']' else s[i])
  {
    if s == [] then []
    else [if s[0] == '(' then '[' else if s[0] == ')' then ']' else s[0]] + Bracketize(s[1..])
  }

  lemma BracketizeConcat(a: string, b: string)
    ensures Bracketize(a + b) == Bracketize(a) + Bracketize(b)
  {
    assert forall i :: 0 <= i < |a + b| ==> Bracketize(a + b)[i] == (Bracketize(a) + Bracketize(b))[i];
  }

  lemma BracketizeNoParens(s: string)
    requires '(' !in s && ')' !in s
    ensures Bracketize(s) == s
  {
    assert forall i :: 0 <= i < |s| ==> Bracketize(s)[i] == s[i];
  }

  function IntStrings(xs: seq<int>): (r: seq<string>)
    ensures |r| == |xs| && forall i :: 0 <= i < |xs| ==> r[i] == IntToString(xs[i])
  {
    if xs == [] then [] else [IntToString(xs[0])] + IntStrings(xs[1..])
  }

  /** Python `str(t)` for a tuple of integers: `(3,)`, `(1, 2)`, `(1, 2, 3)`. */
  function TupleRepr(xs: seq<int>): string
  {
    "(" + JoinWith(", ", IntStrings(xs)) + (if |xs| == 1 then "," else "") + ")"
  }

  /** The tuple repr after parentheses are replaced by square brackets. */
  function ListRepr(xs: seq<int>): string
  {
    "[" + JoinWith(", ", IntStrings(xs)) + (if |xs| == 1 then "," else "") + "]"
  }

  lemma JoinNoParens(sep: string, parts: seq<string>)
    requires '(' !in sep && ')' !in sep && '[' !in sep
    requires forall k :: 0 <= k < |parts| ==> '(' !in parts[k] && ')' !in parts[k] && '[' !in parts[k]
    ensures '(' !in JoinWith(sep, parts) && ')' !in JoinWith(sep, parts) && '[' !in JoinWith(sep, parts)
  {
  }

  lemma IntStringsPlain(xs: seq<int>)
    ensures forall k :: 0 <= k < |xs| ==>
              '(' !in IntStrings(xs)[k] && ')' !in IntStrings(xs)[k] && '[' !in IntStrings(xs)[k]
              && ',' !in IntStrings(xs)[k] && '\t' !in IntStrings(xs)[k]
  {
    forall k | 0 <= k < |xs|
      ensures '(' !in IntStrings(xs)[k] && ')' !in IntStrings(xs)[k] && '[' !in IntStrings(xs)[k]
              && ',' !in IntStrings(xs)[k] && '\t' !in IntStrings(xs)[k]
    {
      var s := NatToString(if xs[k] < 0 then -xs[k] else xs[k]);
      assert forall i :: 0 <= i < |s| ==> IsDigit(s[i]);
    }
  }

  lemma JoinAvoids(c: char, sep: string, parts: seq<string>)
    requires c !in sep
    requires forall k :: 0 <= k < |parts| ==> c !in parts[k]
    ensures c !in JoinWith(sep, parts)
  {
  }

  /** A list repr holds no tab, so it can sit in a tab-separated line. */
  lemma ListReprNoTab(xs: seq<int>)
    ensures '\t' !in ListRepr(xs)
  {
    IntStringsPlain(xs);
    JoinAvoids('\t', ", ", IntStrings(xs));
  }

  lemma BracketizeWrapped(joined: string, suffix: string)
    requires '(' !in joined && ')' !in joined && '(' !in suffix && ')' !in suffix
    ensures Bracketize("(" + joined + suffix + ")") == "[" + joined + suffix + "]"
  {
    var t := "(" + joined + suffix + ")";
    assert forall i :: 0 < i < |t| - 1 ==> t[i] == (joined + suffix)[i - 1];
    assert forall i :: 0 < i < |t| - 1 ==> ("[" + joined + suffix + "]")[i] == (joined + suffix)[i - 1];
  }

  lemma TupleReprBracketized(xs: seq<int>)
    ensures Bracketize(TupleRepr(xs)) == ListRepr(xs)
  {
    IntStringsPlain(xs);
    JoinNoParens(", ", IntStrings(xs));
    BracketizeWrapped(JoinWith(", ", IntStrings(xs)), if |xs| == 1 then "," else "");
  }

  /** Items between the commas of a list repr of naturals: the first number,
      then each further number after a space. */
  function SpacedItems(strs: seq<string>): seq<string>
  {
    if strs == [] then [] else [" " + strs[0]] + SpacedItems(strs[1..])
  }

  lemma {:induction false} JoinCommaSpace(strs: seq<string>)
    requires |strs| >= 1
    ensures JoinWith(", ", strs) == JoinWith(",", [strs[0]] + SpacedItems(strs[1..]))
  {
    if |strs| > 1 {
      JoinCommaSpace(strs[1..]);
      var tail := SpacedItems(strs[1..]);
      assert ([strs[0]] + tail)[1..] == tail;
      assert tail == [" " + strs[1]] + SpacedItems(strs[2..]);
      assert strs[1..][1..] == strs[2..];
    }
  }

  /** Python `int(s.strip())` restricted to the forms the list repr of a
      natural produces: digits, with at most one leading space. */
  function ParseItem(s: string): Option<nat>
  {
    if |s| > 0 && s[0] == ' ' && |s| > 1 && AllDigits(s[1..]) then Some(ParseNat(s[1..]))
    else if |s| > 0 && AllDigits(s) then Some(ParseNat(s))
    else None
  }

  function ParseItems(items: seq<string>): Option<seq<nat>>
  {
    if items == [] then Some([])
    else match (ParseItem(items[0]), ParseItems(items[1..]))
      case (Some(x), Some(xs)) => Some([x] + xs)
      case _ => None
  }

  /** Reads the numbers between the brackets of a list repr: `3,` or
      `1, 2` or `1, 2, 3`. */
  function ParseCoords(inner: string): Option<seq<nat>>
  {
    var items := SplitOn(',', inner);
    if |items| == 2 && items[1] == "" then ParseItems([items[0]]) else ParseItems(items)
  }

  /** Reads `name[i, j, k]`: the name is everything before the last `[`,
      the coordinates are the comma-separated numbers up to the closing `]`. */
  function ParseAddressField(field: string): Option<(string, seq<nat>)>
  {
    match LastIndex('[', field)
    case None => None
    case Some(k) =>
      if field[|field| - 1] != ']' || k + 1 > |field| - 1 then None
      else match ParseCoords(field[k + 1..|field| - 1])
        case None => None
        case Some(cs) => Some((field[..k], cs))
  }

  lemma {:induction false} ParseItemsSpaced(xs: seq<nat>)
    ensures ParseItems(SpacedItems(IntStrings(xs))) == Some(xs)
  {
    if xs != [] {
      ParseItemsSpaced(xs[1..]);
      NatRoundTrip(xs[0]);
      var s := " " + NatToString(xs[0]);
      assert s[1..] == NatToString(xs[0]);
      assert IntStrings(xs)[1..] == IntStrings(xs[1..]);
      assert [xs[0]] + xs[1..] == xs;
    }
  }

  lemma {:induction false} LastIndexSuffix(c: char, a: string, b: string, j: nat)
    requires LastIndex(c, b) == Some(j)
    ensures LastIndex(c, a + b) == Some(|a| + j)
  {
    var s := a + b;
    assert s[|a| + j] == c;
    assert s[|a| + j + 1..] == b[j + 1..];
  }

  /** The text between the brackets of a list repr. */
  function ReprBody(xs: seq<int>): string
  {
    JoinWith(", ", IntStrings(xs)) + (if |xs| == 1 then "," else "")
  }

  /** Splitting off the name at the last `[`: whatever the name holds, the
      field parses as that name and the coordinates of the bracketed part. */
  lemma {:induction false} AddressFieldSplit(prefix: string, body: string)
    requires '[' !in body
    ensures ParseAddressField(prefix + "[" + body + "]")
            == match ParseCoords(body) case None => None case Some(cs) => Some((prefix, cs))
  {
    var tail := "[" + body + "]";
    var field := prefix + tail;
    assert LastIndex('[', tail) == Some(0) by {
      assert tail[1..] == body + "]";
    }
    LastIndexSuffix('[', prefix, tail, 0);
    assert field == prefix + "[" + body + "]";
    assert field[..|prefix|] == prefix;
    assert field[|prefix| + 1..|field| - 1] == body;
  }

  lemma {:induction false} CoordsRoundTrip(xs: seq<nat>)
    requires |xs| >= 1
    ensures ParseCoords(ReprBody(xs)) == Some(xs)
  {
    var strs := IntStrings(xs);
    var body := ReprBody(xs);
    IntStringsPlain(xs);
    JoinCommaSpace(strs);
    SpacedItemsPlain(strs[1..]);
    NatRoundTrip(xs[0]);
    assert strs[0] == NatToString(xs[0]);
    assert ParseItem(strs[0]) == Some(xs[0]);
    var items := [strs[0]] + SpacedItems(strs[1..]);
    if |xs| == 1 {
      assert body == JoinWith(",", [strs[0], ""]);
      SplitJoin(',', [strs[0], ""]);
      assert SplitOn(',', body) == [strs[0], ""];
      assert [strs[0]][1..] == [];
      assert ParseItems([strs[0]]) == Some([xs[0]] + []);
      assert xs == [xs[0]];
    } else {
      assert body == JoinWith(",", items);
      assert forall k :: 0 <= k < |items| ==> ',' !in items[k] by {
        forall k | 0 <= k < |items| ensures ',' !in items[k] {
          if k > 0 {
            assert items[k] == SpacedItems(strs[1..])[k - 1];
          }
        }
      }
      SplitJoin(',', items);
      assert items[1] == " " + strs[1];
      ParseItemsSpaced(xs[1..]);
      assert IntStrings(xs[1..]) == strs[1..];
      assert items[1..] == SpacedItems(strs[1..]);
      assert [xs[0]] + xs[1..] == xs;
    }
  }

  /** The address column round-trips: any name followed by the bracketed
      coordinates of a natural-number address reads back as that name and
      that address. */
  lemma AddressFieldRoundTrip(prefix: string, xs: seq<nat>)
    requires |xs| >= 1
    ensures ParseAddressField(prefix + ListRepr(xs)) == Some((prefix, xs))
  {
    IntStringsPlain(xs);
    JoinNoParens(", ", IntStrings(xs));
    assert '[' !in ReprBody(xs);
    assert prefix + ListRepr(xs) == prefix + "[" + ReprBody(xs) + "]";
    AddressFieldSplit(prefix, ReprBody(xs));
    CoordsRoundTrip(xs);
  }

  lemma {:induction false} SpacedItemsPlain(strs: seq<string>)
    requires forall k :: 0 <= k < |strs| ==> ',' !in strs[k]
    ensures forall k :: 0 <= k < |SpacedItems(strs)| ==> ',' !in SpacedItems(strs)[k]
    ensures |SpacedItems(strs)| == |strs|
    ensures forall k :: 0 <= k < |strs| ==> SpacedItems(strs)[k] == " " + strs[k]
  {
    if strs != [] {
      SpacedItemsPlain(strs[1..]);
    }
  }
}
