/** The string operations used on comma-separated values: `split(",")`, `",".join` and `strip`. */
module Text {

  /** Characters that Python's `str.strip` removes. */
  predicate IsSpace(c: char)
  {
    var n := c as int;
    || 0x09 <= n <= 0x0D || 0x1C <= n <= 0x20 || n == 0x85 || n == 0xA0 || n == 0x1680
    || 0x2000 <= n <= 0x200A || n == 0x2028 || n == 0x2029 || n == 0x202F || n == 0x205F || n == 0x3000
  }

  function StripLeft(s: string): string
  {
    if s != "" && IsSpace(s[0]) then StripLeft(s[1..]) else s
  }

  function StripRight(s: string): string
  {
    if s != "" && IsSpace(s[|s| - 1]) then StripRight(s[..|s| - 1]) else s
  }

  function Strip(s: string): string
  {
    StripRight(StripLeft(s))
  }

  predicate Stripped(s: string)
  {
    s == "" || (!IsSpace(s[0]) && !IsSpace(s[|s| - 1]))
  }

  lemma {:induction false} StripLeftProps(s: string)
    ensures StripLeft(s) == "" || !IsSpace(StripLeft(s)[0])
    ensures forall c | c in StripLeft(s) :: c in s
  {
    if s != "" && IsSpace(s[0]) {
      StripLeftProps(s[1..]);
    }
  }

  lemma {:induction false} StripRightProps(s: string)
    ensures StripRight(s) == "" || !IsSpace(StripRight(s)[|StripRight(s)| - 1])
    ensures StripRight(s) != "" ==> StripRight(s)[0] == s[0]
    ensures forall c | c in StripRight(s) :: c in s
  {
    if s != "" && IsSpace(s[|s| - 1]) {
      StripRightProps(s[..|s| - 1]);
    }
  }

  /** Stripping yields stripped text made of the same characters. */
  lemma {:induction false} StripStrips(s: string)
    ensures Stripped(Strip(s))
    ensures forall c | c in Strip(s) :: c in s
  {
    StripLeftProps(s);
    StripRightProps(StripLeft(s));
  }

  ghost predicate AllSpaces(s: string)
  {
    forall i | 0 <= i < |s| :: IsSpace(s[i])
  }

  lemma {:induction false} StripLeftCuts(s: string) returns (a: string)
    ensures s == a + StripLeft(s) && AllSpaces(a)
  {
    a := "";
    if s != "" && IsSpace(s[0]) {
      var rest := StripLeftCuts(s[1..]);
      a := [s[0]] + rest;
    }
  }

  lemma {:induction false} StripRightCuts(s: string) returns (b: string)
    ensures s == StripRight(s) + b && AllSpaces(b)
  {
    b := "";
    if s != "" && IsSpace(s[|s| - 1]) {
      var rest := StripRightCuts(s[..|s| - 1]);
      b := rest + [s[|s| - 1]];
      assert s == s[..|s| - 1] + [s[|s| - 1]];
    }
  }

  /** Stripping takes away spaces at both ends and nothing else. */
  lemma {:induction false} StripCutsSpaces(s: string) returns (a: string, b: string)
    ensures s == a + Strip(s) + b && AllSpaces(a) && AllSpaces(b)
    ensures Stripped(Strip(s))
  {
    a := StripLeftCuts(s);
    b := StripRightCuts(StripLeft(s));
    StripStrips(s);
  }

  /** Split at every comma; there is always at least one piece. */
  function Split(s: string): (r: seq<string>)
    ensures |r| >= 1
  {
    if s == "" then [""]
    else
      var rest := Split(s[1..]);
      if s[0] == ',' then [""] + rest else [[s[0]] + rest[0]] + rest[1..]
  }

  function Join(pieces: seq<string>): string
  {
    if pieces == [] then ""
    else if |pieces| == 1 then pieces[0]
    else pieces[0] + "," + Join(pieces[1..])
  }

  /** A comma separates: the pieces of both sides follow each other. */
  lemma {:induction false} SplitAtComma(a: string, b: string)
    ensures Split(a + "," + b) == Split(a) + Split(b)
  {
    var s := a + "," + b;
    if a == "" {
      assert s[0] == ',' && s[1..] == b;
    } else {
      assert s[0] == a[0] && s[1..] == a[1..] + "," + b;
      SplitAtComma(a[1..], b);
    }
  }

  lemma {:induction false} SplitWithoutComma(s: string)
    requires ',' !in s
    ensures Split(s) == [s]
  {
    if s != "" {
      assert s[0] != ',' && forall c | c in s[1..] :: c in s;
      SplitWithoutComma(s[1..]);
      assert s == [s[0]] + s[1..];
    }
  }

  lemma {:induction false} SplitPiecesHaveNoComma(s: string)
    ensures forall i | 0 <= i < |Split(s)| :: ',' !in Split(s)[i]
  {
    if s != "" {
      SplitPiecesHaveNoComma(s[1..]);
    }
  }

  /** Splitting undoes joining for comma-free pieces. */
  lemma {:induction false} SplitJoin(pieces: seq<string>)
    requires pieces != [] && forall i | 0 <= i < |pieces| :: ',' !in pieces[i]
    ensures Split(Join(pieces)) == pieces
  {
    SplitWithoutComma(pieces[0]);
    if |pieces| > 1 {
      SplitJoin(pieces[1..]);
      SplitAtComma(pieces[0], Join(pieces[1..]));
      assert pieces == [pieces[0]] + pieces[1..];
    }
  }

  /** The stripped pieces that are not empty. */
  function Clean(pieces: seq<string>): seq<string>
  {
    if pieces == [] then []
    else (if Strip(pieces[0]) == "" then [] else [Strip(pieces[0])]) + Clean(pieces[1..])
  }

  lemma {:induction false} CleanConcat(a: seq<string>, b: seq<string>)
    ensures Clean(a + b) == Clean(a) + Clean(b)
  {
    if a == [] {
      assert a + b == b;
    } else {
      assert (a + b)[1..] == a[1..] + b;
      CleanConcat(a[1..], b);
    }
  }

  /** A value as it comes out of a comma-separated list. */
  predicate IsItem(s: string)
  {
    s != "" && ',' !in s && Stripped(s)
  }

  /** `[item.strip() for item in value.split(",") if item.strip()]`. */
  function Items(value: string): seq<string>
  {
    Clean(Split(value))
  }

  lemma {:induction false} CleanYieldsItems(pieces: seq<string>)
    requires forall i | 0 <= i < |pieces| :: ',' !in pieces[i]
    ensures forall i | 0 <= i < |Clean(pieces)| :: IsItem(Clean(pieces)[i])
  {
    if pieces != [] {
      StripStrips(pieces[0]);
      CleanYieldsItems(pieces[1..]);
    }
  }

  lemma {:induction false} ItemsAreItems(value: string)
    ensures forall i | 0 <= i < |Items(value)| :: IsItem(Items(value)[i])
  {
    SplitPiecesHaveNoComma(value);
    CleanYieldsItems(Split(value));
  }

  lemma {:induction false} CleanOfItems(pieces: seq<string>)
    requires forall i | 0 <= i < |pieces| :: IsItem(pieces[i])
    ensures Clean(pieces) == pieces
  {
    if pieces != [] {
      assert Strip(pieces[0]) == pieces[0];
      CleanOfItems(pieces[1..]);
      assert pieces == [pieces[0]] + pieces[1..];
    }
  }

  /** Round trip: joining items and reading them back gives the same list. */
  lemma {:induction false} ItemsOfJoin(items: seq<string>)
    requires items != [] && forall i | 0 <= i < |items| :: IsItem(items[i])
    ensures Items(Join(items)) == items
  {
    SplitJoin(items);
    CleanOfItems(items);
  }
}
