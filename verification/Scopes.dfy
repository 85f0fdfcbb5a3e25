/** Scope lists on their way into and out of the database: `normalize_scopes`, the filter in
    `create_api_key`, the stored comma-joined column, `_split_scopes` and `_parse_scopes`. */
module Scopes {
  import opened Text

  const SUPER_ADMIN := "super_admin"

  /** Appends the values not listed yet, in order. */
  function AppendNew(scopes: seq<string>, items: seq<string>): seq<string>
    decreases |items|
  {
    if items == [] then scopes
    else AppendNew(if items[0] in scopes then scopes else scopes + [items[0]], items[1..])
  }

  function Normalized(value: seq<string>): seq<string>
  {
    if value == [] then []
    else AppendNew(Normalized(value[..|value| - 1]), Items(value[|value| - 1]))
  }

  datatype Normalization = Normal(scopes: seq<string>) | NoScope

  /** `normalize_scopes`: items of every entry, first occurrences only; none at all is an error. */
  method NormalizeScopes(value: seq<string>) returns (r: Normalization)
    ensures r == if Normalized(value) == [] then NoScope else Normal(Normalized(value))
  {
    var scopes: seq<string> := [];
    var seen: set<string> := {};
    for v := 0 to |value|
      invariant scopes == Normalized(value[..v]) && seen == Listed(scopes)
    {
      scopes, seen := AppendEntry(scopes, seen, value[v]);
      assert value[..v + 1][..v] == value[..v];
    }
    assert value[..|value|] == value;
    if scopes == [] {
      return NoScope;
    }
    r := Normal(scopes);
  }

  function Listed(scopes: seq<string>): set<string>
  {
    set s | s in scopes
  }

  lemma {:induction false} CleanFirst(pieces: seq<string>)
    requires pieces != []
    ensures Clean(pieces)
         == if Strip(pieces[0]) == "" then Clean(pieces[1..]) else [Strip(pieces[0])] + Clean(pieces[1..])
  {
  }

  /** One piece of an entry: stripped, and skipped if empty or listed already. */
  lemma {:induction false} AppendPiece(scopes: seq<string>, pieces: seq<string>, p: nat)
    requires p < |pieces|
    ensures var scope := Strip(pieces[p]);
      AppendNew(scopes, Clean(pieces[p..]))
      == AppendNew(if scope == "" || scope in scopes then scopes else scopes + [scope], Clean(pieces[p + 1..]))
  {
    assert pieces[p..][1..] == pieces[p + 1..];
    CleanFirst(pieces[p..]);
    var scope, rest := Strip(pieces[p]), Clean(pieces[p + 1..]);
    assert ([scope] + rest)[1..] == rest;
  }

  lemma {:induction false} ListedSnoc(scopes: seq<string>, scope: string)
    ensures Listed(scopes + [scope]) == Listed(scopes) + {scope}
  {
  }

  /** The inner loop: one entry's pieces, stripped, skipping empty and already seen ones. */
  method AppendEntry(before: seq<string>, known: set<string>, entry: string)
    returns (scopes: seq<string>, seen: set<string>)
    requires known == Listed(before)
    ensures scopes == AppendNew(before, Items(entry)) && seen == Listed(scopes)
  {
    scopes, seen := before, known;
    var pieces := Split(entry);
    assert pieces[0..] == pieces;
    for p := 0 to |pieces|
      invariant seen == Listed(scopes)
      invariant AppendNew(before, Clean(pieces)) == AppendNew(scopes, Clean(pieces[p..]))
    {
      AppendPiece(scopes, pieces, p);
      var scope := Strip(pieces[p]);
      if scope != "" && scope !in seen {
        ListedSnoc(scopes, scope);
        scopes := scopes + [scope];
        seen := seen + {scope};
      }
    }
    assert pieces[|pieces|..] == [];
  }

  ghost predicate ItemList(scopes: seq<string>)
  {
    && (forall i | 0 <= i < |scopes| :: IsItem(scopes[i]))
    && (forall i, j | 0 <= i < j < |scopes| :: scopes[i] != scopes[j])
  }

  lemma {:induction false} AppendNewMembers(scopes: seq<string>, items: seq<string>, s: string)
    ensures s in AppendNew(scopes, items) <==> s in scopes || s in items
    decreases |items|
  {
    if items != [] {
      AppendNewMembers(if items[0] in scopes then scopes else scopes + [items[0]], items[1..], s);
      assert items == [items[0]] + items[1..];
    }
  }

  lemma {:induction false} AppendNewExtends(scopes: seq<string>, items: seq<string>)
    requires ItemList(scopes) && forall i | 0 <= i < |items| :: IsItem(items[i])
    ensures ItemList(AppendNew(scopes, items)) && scopes <= AppendNew(scopes, items)
    decreases |items|
  {
    if items != [] {
      var next := if items[0] in scopes then scopes else scopes + [items[0]];
      assert ItemList(next) && scopes <= next;
      AppendNewExtends(next, items[1..]);
    }
  }

  lemma {:induction false} AppendNewProps(scopes: seq<string>, items: seq<string>)
    requires ItemList(scopes) && forall i | 0 <= i < |items| :: IsItem(items[i])
    ensures ItemList(AppendNew(scopes, items)) && scopes <= AppendNew(scopes, items)
    ensures forall s :: s in AppendNew(scopes, items) <==> s in scopes || s in items
  {
    AppendNewExtends(scopes, items);
    forall s
      ensures s in AppendNew(scopes, items) <==> s in scopes || s in items
    {
      AppendNewMembers(scopes, items, s);
    }
  }

  /** Some entry lists the scope. */
  ghost predicate Requested(value: seq<string>, scope: string)
  {
    exists i | 0 <= i < |value| :: scope in Items(value[i])
  }

  lemma {:induction false} RequestedBefore(value: seq<string>, n: nat, scope: string)
    requires n <= |value|
    ensures Requested(value[..n], scope) <==> exists i | 0 <= i < n :: scope in Items(value[i])
  {
    var prefix := value[..n];
    assert forall i | 0 <= i < n :: prefix[i] == value[i];
    if i :| 0 <= i < n && scope in Items(value[i]) {
      assert scope in Items(prefix[i]);
    }
  }

  lemma {:induction false} RequestedSnoc(value: seq<string>, scope: string)
    requires value != []
    ensures Requested(value, scope) <==> Requested(value[..|value| - 1], scope) || scope in Items(value[|value| - 1])
  {
    RequestedBefore(value, |value| - 1, scope);
  }

  /** Normalization yields distinct items: exactly those some entry lists. */
  lemma {:induction false} NormalizedProps(value: seq<string>)
    ensures ItemList(Normalized(value))
    ensures forall s :: s in Normalized(value) <==> Requested(value, s)
  {
    if value != [] {
      var n := |value| - 1;
      NormalizedProps(value[..n]);
      ItemsAreItems(value[n]);
      AppendNewProps(Normalized(value[..n]), Items(value[n]));
      forall s
        ensures s in Normalized(value) <==> Requested(value, s)
      {
        RequestedSnoc(value, s);
      }
    }
  }

  /** All items of all entries, in order, repetitions included. */
  function AllItems(value: seq<string>): seq<string>
  {
    if value == [] then [] else AllItems(value[..|value| - 1]) + Items(value[|value| - 1])
  }

  lemma {:induction false} AppendNewConcat(scopes: seq<string>, a: seq<string>, b: seq<string>)
    ensures AppendNew(scopes, a + b) == AppendNew(AppendNew(scopes, a), b)
    decreases |a|
  {
    if a == [] {
      assert a + b == b;
    } else {
      assert (a + b)[1..] == a[1..] + b;
      AppendNewConcat(if a[0] in scopes then scopes else scopes + [a[0]], a[1..], b);
    }
  }

  lemma {:induction false} NormalizedIsAppended(value: seq<string>)
    ensures Normalized(value) == AppendNew([], AllItems(value))
    ensures forall i | 0 <= i < |AllItems(value)| :: IsItem(AllItems(value)[i])
  {
    if value != [] {
      var n := |value| - 1;
      NormalizedIsAppended(value[..n]);
      ItemsAreItems(value[n]);
      AppendNewConcat([], AllItems(value[..n]), Items(value[n]));
    }
  }

  lemma {:induction false} AppendedInOrder(items: seq<string>, n: nat) returns (m: nat)
    requires n <= |items| && forall i | 0 <= i < |items| :: IsItem(items[i])
    ensures m <= |AppendNew([], items)|
    ensures forall s :: s in AppendNew([], items)[..m] <==> s in items[..n]
  {
    var first := AppendNew([], items[..n]);
    AppendNewConcat([], items[..n], items[n..]);
    assert items == items[..n] + items[n..];
    AppendNewProps([], items[..n]);
    AppendNewProps(first, items[n..]);
    m := |first|;
    assert AppendNew([], items)[..m] == first;
  }

  /** The order is that of first occurrences: the first `n` items requested are exactly those listed
      in some first part of the result. */
  lemma {:induction false} NormalizedInOrder(value: seq<string>, n: nat) returns (m: nat)
    requires n <= |AllItems(value)|
    ensures m <= |Normalized(value)|
    ensures forall s :: s in Normalized(value)[..m] <==> s in AllItems(value)[..n]
  {
    NormalizedIsAppended(value);
    m := AppendedInOrder(AllItems(value), n);
  }

  /** The scopes a non-super admin may hand out. */
  function WithoutSuper(scopes: seq<string>): seq<string>
  {
    if scopes == [] then []
    else (if scopes[0] == SUPER_ADMIN then [] else [scopes[0]]) + WithoutSuper(scopes[1..])
  }

  lemma {:induction false} WithoutSuperProps(scopes: seq<string>)
    requires ItemList(scopes)
    ensures ItemList(WithoutSuper(scopes))
    ensures forall s :: s in WithoutSuper(scopes) <==> s in scopes && s != SUPER_ADMIN
  {
    if scopes != [] {
      assert scopes == [scopes[0]] + scopes[1..];
      assert ItemList(scopes[1..]);
      WithoutSuperProps(scopes[1..]);
      assert scopes[0] !in scopes[1..];
    }
  }

  /** `_split_scopes`. */
  function SplitScopes(column: string): seq<string>
  {
    Items(column)
  }

  /** `_parse_scopes`: an empty column, or one without items, means the chat scope. */
  function ParseScopes(column: string): set<string>
  {
    var items := Items(if column == "" then "chat" else column);
    if items == [] then {"chat"} else set s | s in items
  }

  /** A stored scope list is read back exactly: as the same list by the key listing and as its
      set of scopes by authentication. */
  lemma {:induction false} StoredScopesReadBack(scopes: seq<string>)
    requires scopes != [] && forall i | 0 <= i < |scopes| :: IsItem(scopes[i])
    ensures SplitScopes(Join(scopes)) == scopes
    ensures ParseScopes(Join(scopes)) == set s | s in scopes
  {
    ItemsOfJoin(scopes);
  }

  /** Normalize, filter, join, parse: exactly the requested scopes other than super_admin, for
      every list of entries, comma-joined ones included. */
  lemma {:induction false} GrantRoundTrip(value: seq<string>)
    requires WithoutSuper(Normalized(value)) != []
    ensures SplitScopes(Join(WithoutSuper(Normalized(value)))) == WithoutSuper(Normalized(value))
    ensures forall s :: s in ParseScopes(Join(WithoutSuper(Normalized(value))))
                   <==> s != SUPER_ADMIN && Requested(value, s)
  {
    NormalizedProps(value);
    WithoutSuperProps(Normalized(value));
    StoredScopesReadBack(WithoutSuper(Normalized(value)));
  }

  /** A stored column gives the scopes it lists, and the chat scope if it lists none. */
  lemma {:induction false} ParsedScopes(column: string, s: string)
    ensures s in ParseScopes(column) <==> if Items(column) == [] then s == "chat" else s in Items(column)
  {
    if column == "" {
      assert Split(column) == [""] && Strip("") == "";
      assert [""][1..] == [];
      StoredScopesReadBack(["chat"]);
      assert Join(["chat"]) == "chat";
    }
  }
}
