/** Copying headers from one hop to the next, and the credential that goes to the upstream. */
module Headers {
  import opened Text

  // ---------- Canonical names ----------

  predicate IsTokenChar(c: char) {
    || 'a' <= c <= 'z' || 'A' <= c <= 'Z' || '0' <= c <= '9'
    || c == '!' || '#' <= c <= '\'' || c == '*' || c == '+' || c == '-' || c == '.' || '^' <= c <= '`' || c == '|' || c == '~'
  }

  predicate IsToken(s: string) {
    forall i :: 0 <= i < |s| ==> IsTokenChar(s[i])
  }

  function CaseAt(s: string, i: nat): char
    requires i < |s|
  {
    if i == 0 || s[i - 1] == '-' then UpperChar(s[i]) else LowerChar(s[i])
  }

  /** http.CanonicalHeaderKey: every word of a token with a capital letter, anything else unchanged. */
  function Canonical(key: string): string {
    if IsToken(key) then seq(|key|, i requires 0 <= i < |key| => CaseAt(key, i)) else key
  }

  /** Making a name canonical again changes nothing. */
  lemma CanonicalTwice(key: string)
    ensures Canonical(Canonical(key)) == Canonical(key)
  {
    var once := Canonical(key);
    if IsToken(key) {
      forall i | 0 <= i < |key| ensures IsTokenChar(once[i]) && CaseAt(once, i) == once[i] { assert once[i] == CaseAt(key, i); }
      assert Canonical(once) == once;
    }
  }

  lemma CanonicalIs(key: string, canonical: string)
    requires IsToken(key) && |key| == |canonical| && forall i :: 0 <= i < |key| ==> CaseAt(key, i) == canonical[i]
    ensures Canonical(key) == canonical
  {
  }

  lemma ConnectionName()
    ensures Canonical("Connection") == "Connection"
  {
    CanonicalIs("Connection", "Connection");
  }

  lemma AuthorizationName()
    ensures Canonical("Authorization") == "Authorization"
  {
    CanonicalIs("Authorization", "Authorization");
  }

  lemma ApiKeyName(spelling: string)
    requires spelling in {"X-Api-Key", "X-API-Key", "x-api-key"}
    ensures Canonical(spelling) == "X-Api-Key"
  {
    CanonicalIs(spelling, "X-Api-Key");
  }

  // ---------- Header maps ----------

  type Fields = map<string, seq<string>>

  function ValuesOf(fields: Fields, key: string): seq<string> {
    if key in fields then fields[key] else []
  }

  function Added(fields: Fields, key: string, value: string): Fields {
    fields[Canonical(key) := ValuesOf(fields, Canonical(key)) + [value]]
  }

  class Header {
    var fields: Fields

    constructor ()
      ensures fields == map[]
    {
      fields := map[];
    }

    method Add(key: string, value: string)
      modifies this
      ensures fields == Added(old(fields), key, value)
    {
      var values := if Canonical(key) in fields then fields[Canonical(key)] else [];
      fields := fields[Canonical(key) := values + [value]];
    }

    method Set(key: string, value: string)
      modifies this
      ensures fields == old(fields)[Canonical(key) := [value]]
    {
      fields := fields[Canonical(key) := [value]];
    }

    method Del(key: string)
      modifies this
      ensures fields == old(fields) - {Canonical(key)}
    {
      fields := fields - {Canonical(key)};
    }
  }

  // ---------- What copying means ----------

  const HOP_BY_HOP := {"Connection", "Proxy-Connection", "Keep-Alive", "Proxy-Authenticate", "Proxy-Authorization",
                       "Te", "Trailer", "Transfer-Encoding", "Upgrade"}

  predicate IsHopByHopHeader(key: string) {
    Canonical(key) in HOP_BY_HOP
  }

  /** The names that the Connection headers of a message list. */
  function TokensOf(values: seq<string>): set<string> {
    set value, token | value in values && token in Split(value, ',') :: Canonical(Trim(token))
  }

  /** The source's values that reach a destination's key: those of every source key of this name, in the order
      of iteration. */
  function Arriving(source: Fields, order: seq<string>, key: string): seq<string> {
    if order == [] then []
    else
      var last := order[|order| - 1];
      Arriving(source, order[..|order| - 1], key)
      + if Canonical(last) == key && last in source && !IsHopByHopHeader(last) then source[last] else []
  }

  ghost predicate MergedAt(before: Fields, arriving: seq<string>, after: Fields, key: string) {
    && ValuesOf(after, key) == ValuesOf(before, key) + arriving
    && (key in after <==> key in before || arriving != [])
  }

  ghost predicate Merged(before: Fields, source: Fields, order: seq<string>, after: Fields) {
    forall key :: MergedAt(before, Arriving(source, order, key), after, key)
  }

  /** Every name ends with the old values followed by what arrives, except the names listed in Connection. */
  ghost predicate Copied(before: Fields, source: Fields, order: seq<string>, after: Fields) {
    exists merged :: Merged(before, source, order, merged) && after == merged - TokensOf(ValuesOf(source, Canonical("Connection")))
  }

  /** order is one of the orders in which the map can be iterated. */
  ghost predicate IteratesOver(order: seq<string>, source: Fields) {
    && (forall i, j :: 0 <= i < j < |order| ==> order[i] != order[j])
    && (forall key :: key in order <==> key in source)
  }

  // ---------- The loops ----------

  function AddedAll(fields: Fields, key: string, values: seq<string>): Fields {
    if values == [] then fields else fields[Canonical(key) := ValuesOf(fields, Canonical(key)) + values]
  }

  lemma AddedMore(fields: Fields, key: string, values: seq<string>, value: string)
    ensures Added(AddedAll(fields, key, values), key, value) == AddedAll(fields, key, values + [value])
  {
    var had := ValuesOf(fields, Canonical(key));
    assert values == [] ==> values + [value] == [value];
    assert had + values + [value] == had + (values + [value]);
  }

  method AddAll(destination: Header, key: string, values: seq<string>)
    modifies destination
    ensures destination.fields == AddedAll(old(destination.fields), key, values)
  {
    assert values[..0] == [];
    for i := 0 to |values|
      invariant destination.fields == AddedAll(old(destination.fields), key, values[..i])
    {
      AddedMore(old(destination.fields), key, values[..i], values[i]);
      destination.Add(key, values[i]);
      assert values[..i + 1] == values[..i] + [values[i]];
    }
    assert values[..|values|] == values;
  }

  lemma AddedAllAt(before: Fields, arriving: seq<string>, fields: Fields, name: string, values: seq<string>, key: string)
    requires MergedAt(before, arriving, fields, key)
    ensures MergedAt(before, arriving + (if Canonical(name) == key then values else []), AddedAll(fields, name, values), key)
  {
    assert ValuesOf(before, key) + arriving + values == ValuesOf(before, key) + (arriving + values);
  }

  lemma ArrivingMore(source: Fields, order: seq<string>, i: nat, key: string)
    requires i < |order| && order[i] in source
    ensures Arriving(source, order[..i + 1], key) ==
            Arriving(source, order[..i], key) + (if Canonical(order[i]) == key && !IsHopByHopHeader(order[i]) then source[order[i]] else [])
  {
    assert order[..i + 1][..i] == order[..i];
  }

  lemma MergedMore(before: Fields, source: Fields, order: seq<string>, i: nat, fields: Fields)
    requires i < |order| && order[i] in source && Merged(before, source, order[..i], fields)
    ensures Merged(before, source, order[..i + 1],
                   if IsHopByHopHeader(order[i]) then fields else AddedAll(fields, order[i], source[order[i]]))
  {
    var after := if IsHopByHopHeader(order[i]) then fields else AddedAll(fields, order[i], source[order[i]]);
    var next := order[..i + 1];
    forall key ensures MergedAt(before, Arriving(source, next, key), after, key) {
      ArrivingMore(source, order, i, key);
      assert MergedAt(before, Arriving(source, order[..i], key), fields, key);
      if !IsHopByHopHeader(order[i]) {
        AddedAllAt(before, Arriving(source, order[..i], key), fields, order[i], source[order[i]], key);
      }
    }
  }

  method RemoveTokens(headers: Header, tokens: seq<string>)
    modifies headers
    ensures headers.fields == old(headers.fields) - (set token | token in tokens :: Canonical(Trim(token)))
  {
    for j := 0 to |tokens|
      invariant headers.fields == old(headers.fields) - (set token | token in tokens[..j] :: Canonical(Trim(token)))
    {
      headers.Del(Trim(tokens[j]));
      assert tokens[..j + 1] == tokens[..j] + [tokens[j]];
    }
    assert tokens[..|tokens|] == tokens;
  }

  method RemoveConnectionTokens(headers: Header, connectionValues: seq<string>)
    modifies headers
    ensures headers.fields == old(headers.fields) - TokensOf(connectionValues)
  {
    for i := 0 to |connectionValues|
      invariant headers.fields == old(headers.fields) - TokensOf(connectionValues[..i])
    {
      RemoveTokens(headers, Split(connectionValues[i], ','));
      assert connectionValues[..i + 1] == connectionValues[..i] + [connectionValues[i]];
    }
    assert connectionValues[..|connectionValues|] == connectionValues;
  }

  method CopyHeaders(destination: Header, source: Header, order: seq<string>)
    requires destination != source && IteratesOver(order, source.fields)
    modifies destination
    ensures Copied(old(destination.fields), source.fields, order, destination.fields)
  {
    ghost var before := destination.fields;
    for i := 0 to |order|
      invariant source.fields == old(source.fields)
      invariant Merged(before, source.fields, order[..i], destination.fields)
    {
      assert order[i] in order;
      MergedMore(before, source.fields, order, i, destination.fields);
      if IsHopByHopHeader(order[i]) { continue; }
      AddAll(destination, order[i], source.fields[order[i]]);
    }
    assert order[..|order|] == order;
    ghost var merged := destination.fields;
    RemoveConnectionTokens(destination, ValuesOf(source.fields, Canonical("Connection")));
    assert Merged(before, source.fields, order, merged);
  }

  // ---------- The order does not matter ----------

  /** The keys are canonical, as in every header map that was read from the wire. */
  ghost predicate CanonicalKeys(fields: Fields) {
    forall key :: key in fields ==> Canonical(key) == key
  }

  lemma ArrivingLast(source: Fields, front: seq<string>, last: string, key: string)
    requires last in source && Canonical(last) == last
    ensures Arriving(source, front + [last], key) ==
            Arriving(source, front, key) + (if last == key && !IsHopByHopHeader(key) then source[last] else [])
  {
    assert (front + [last])[..|front|] == front;
  }

  lemma {:induction false} ArrivingFrom(source: Fields, order: seq<string>, key: string)
    requires CanonicalKeys(source) && (forall i, j :: 0 <= i < j < |order| ==> order[i] != order[j])
    requires forall i :: 0 <= i < |order| ==> order[i] in source
    ensures Arriving(source, order, key) == if key in order && !IsHopByHopHeader(key) then source[key] else []
    decreases |order|
  {
    if order != [] {
      var front, last := order[..|order| - 1], order[|order| - 1];
      assert order == front + [last] && last !in front;
      ArrivingFrom(source, front, key);
      ArrivingLast(source, front, last, key);
    }
  }

  function Expected(before: Fields, source: Fields, key: string): seq<string> {
    ValuesOf(before, key) + if IsHopByHopHeader(key) then [] else ValuesOf(source, key)
  }

  /** Whatever the iteration order, a header ends as its old values followed by the source's, without those of
      hop-by-hop names; and the names listed in Connection are gone. */
  lemma CopyResult(before: Fields, source: Fields, order: seq<string>, after: Fields, key: string)
    requires CanonicalKeys(source) && IteratesOver(order, source) && Copied(before, source, order, after)
    ensures var listed := TokensOf(ValuesOf(source, Canonical("Connection")));
      && ValuesOf(after, key) == (if key in listed then [] else Expected(before, source, key))
      && (key in after <==> key !in listed && (key in before || Expected(before, source, key) != []))
  {
    var merged :| Merged(before, source, order, merged) && after == merged - TokensOf(ValuesOf(source, Canonical("Connection")));
    forall i | 0 <= i < |order| ensures order[i] in source { assert order[i] in order; }
    ArrivingFrom(source, order, key);
    assert MergedAt(before, Arriving(source, order, key), merged, key);
  }

  /** Two runs over the same canonical source in different orders end in the same headers. */
  lemma OrderIndependent(before: Fields, source: Fields, one: seq<string>, two: seq<string>, afterOne: Fields, afterTwo: Fields)
    requires CanonicalKeys(source) && IteratesOver(one, source) && IteratesOver(two, source)
    requires Copied(before, source, one, afterOne) && Copied(before, source, two, afterTwo)
    ensures afterOne == afterTwo
  {
    forall key ensures key in afterOne <==> key in afterTwo {
      CopyResult(before, source, one, afterOne, key);
      CopyResult(before, source, two, afterTwo, key);
    }
    forall key | key in afterOne ensures afterOne[key] == afterTwo[key] {
      CopyResult(before, source, one, afterOne, key);
      CopyResult(before, source, two, afterTwo, key);
      assert ValuesOf(afterOne, key) == ValuesOf(afterTwo, key);
    }
  }

  /** Without canonical keys the order shows: two spellings of one name. */
  lemma OrderShows(source: Fields, one: seq<string>, two: seq<string>, afterOne: Fields, afterTwo: Fields)
    requires source == map["A" := ["1"], "a" := ["2"]] && one == ["A", "a"] && two == ["a", "A"]
    requires Copied(map[], source, one, afterOne) && Copied(map[], source, two, afterTwo)
    ensures ValuesOf(afterOne, "A") == ["1", "2"] && ValuesOf(afterTwo, "A") == ["2", "1"]
  {
    SpellingsArrive(source);
    ConnectionName();
    var mergedOne :| Merged(map[], source, one, mergedOne) && afterOne == mergedOne - TokensOf(ValuesOf(source, Canonical("Connection")));
    var mergedTwo :| Merged(map[], source, two, mergedTwo) && afterTwo == mergedTwo - TokensOf(ValuesOf(source, Canonical("Connection")));
    assert MergedAt(map[], Arriving(source, one, "A"), mergedOne, "A") && MergedAt(map[], Arriving(source, two, "A"), mergedTwo, "A");
  }

  lemma SpellingsArrive(source: Fields)
    requires source == map["A" := ["1"], "a" := ["2"]]
    ensures Arriving(source, ["A", "a"], "A") == ["1", "2"] && Arriving(source, ["a", "A"], "A") == ["2", "1"]
  {
    CanonicalIs("A", "A");
    CanonicalIs("a", "A");
    assert ["A", "a"][..1] == ["A"] && ["a", "A"][..1] == ["a"];
    assert Arriving(source, ["A"], "A") == ["1"] && Arriving(source, ["a"], "A") == ["2"];
  }

  // ---------- Exactly when the order does not matter ----------

  /** What one source key adds to a name. */
  function Word(source: Fields, name: string, key: string): seq<string> {
    if Canonical(name) == key && name in source && !IsHopByHopHeader(name) then source[name] else []
  }

  ghost predicate WordsCommute(source: Fields, key: string) {
    forall a, b :: a in source && b in source ==> Word(source, a, key) + Word(source, b, key) == Word(source, b, key) + Word(source, a, key)
  }

  lemma ArrivingSnoc(source: Fields, front: seq<string>, last: string, key: string)
    ensures Arriving(source, front + [last], key) == Arriving(source, front, key) + Word(source, last, key)
  {
    assert (front + [last])[..|front|] == front;
  }

  lemma Regroup<T>(x: seq<T>, y: seq<T>, z: seq<T>)
    ensures x + y + z == x + (y + z)
  {
  }

  lemma {:induction false} ArrivingConcat(source: Fields, one: seq<string>, two: seq<string>, key: string)
    ensures Arriving(source, one + two, key) == Arriving(source, one, key) + Arriving(source, two, key)
    decreases |two|
  {
    if two == [] {
      assert one + two == one;
    } else {
      var front, last := two[..|two| - 1], two[|two| - 1];
      ArrivingConcat(source, one, front, key);
      assert one + two == (one + front) + [last] && two == front + [last];
      ArrivingSnoc(source, one + front, last, key);
      ArrivingSnoc(source, front, last, key);
      Regroup(Arriving(source, one, key), Arriving(source, front, key), Word(source, last, key));
    }
  }

  predicate AllIn(names: seq<string>, source: Fields) {
    forall i :: 0 <= i < |names| ==> names[i] in source
  }

  lemma LastApart(a: seq<string>, x: string, b: seq<string>)
    requires b != []
    ensures a + [x] + b == (a + [x] + b[..|b| - 1]) + [b[|b| - 1]] && a + b == (a + b[..|b| - 1]) + [b[|b| - 1]]
  {
    assert b == b[..|b| - 1] + [b[|b| - 1]];
  }

  lemma {:induction false} MoveToEnd(source: Fields, a: seq<string>, x: string, b: seq<string>, key: string)
    requires WordsCommute(source, key) && x in source && AllIn(b, source)
    ensures Arriving(source, a + [x] + b, key) == Arriving(source, a + b, key) + Word(source, x, key)
    decreases |b|
  {
    if b == [] {
      assert a + [x] + b == a + [x] && a + b == a;
      ArrivingSnoc(source, a, x, key);
    } else {
      var front, y := b[..|b| - 1], b[|b| - 1];
      MoveToEnd(source, a, x, front, key);
      LastApart(a, x, b);
      ArrivingSnoc(source, a + [x] + front, y, key);
      ArrivingSnoc(source, a + front, y, key);
      Swap(Arriving(source, a + front, key), Word(source, x, key), Word(source, y, key));
    }
  }

  lemma Swap<T>(s: seq<T>, x: seq<T>, y: seq<T>)
    requires x + y == y + x
    ensures s + x + y == s + y + x
  {
    assert s + x + y == s + (x + y) && s + y + x == s + (y + x);
  }

  ghost predicate SameNames(one: seq<string>, two: seq<string>) {
    && (forall i, j :: 0 <= i < j < |one| ==> one[i] != one[j])
    && (forall i, j :: 0 <= i < j < |two| ==> two[i] != two[j])
    && (forall name :: name in one <==> name in two)
  }

  lemma SameNamesWithout(one: seq<string>, two: seq<string>, i: nat)
    requires SameNames(one, two) && one != [] && i < |two| && two[i] == one[|one| - 1]
    ensures SameNames(one[..|one| - 1], two[..i] + two[i + 1..])
  {
    var front, rest := one[..|one| - 1], two[..i] + two[i + 1..];
    forall name ensures name in front <==> name in rest {
      if name in front { assert name in two && name != two[i]; }
      if name in rest { assert name in one && name != two[i]; }
    }
  }

  lemma FirstIsIn(names: seq<string>)
    ensures names != [] ==> names[0] in names
  {
  }

  lemma LastIn(one: seq<string>, two: seq<string>) returns (i: nat)
    requires SameNames(one, two) && one != []
    ensures i < |two| && two[i] == one[|one| - 1]
  {
    assert one[|one| - 1] in two;
    i :| 0 <= i < |two| && two[i] == one[|one| - 1];
  }

  lemma AllInWithout(two: seq<string>, i: nat, source: Fields)
    requires AllIn(two, source) && i < |two|
    ensures AllIn(two[..i] + two[i + 1..], source)
  {
  }

  lemma TakenOut(source: Fields, two: seq<string>, i: nat, key: string)
    requires WordsCommute(source, key) && i < |two| && AllIn(two, source)
    ensures Arriving(source, two, key) == Arriving(source, two[..i] + two[i + 1..], key) + Word(source, two[i], key)
  {
    assert two == two[..i] + [two[i]] + two[i + 1..];
    MoveToEnd(source, two[..i], two[i], two[i + 1..], key);
  }

  /** Words that commute can be joined in any order. */
  lemma {:induction false} ArrivingPermutes(source: Fields, one: seq<string>, two: seq<string>, key: string)
    requires WordsCommute(source, key) && SameNames(one, two) && AllIn(two, source)
    ensures Arriving(source, one, key) == Arriving(source, two, key)
    decreases |one|
  {
    if one == [] {
      FirstIsIn(two);
    } else {
      var front, last := one[..|one| - 1], one[|one| - 1];
      var i := LastIn(one, two);
      var rest := two[..i] + two[i + 1..];
      SameNamesWithout(one, two, i);
      AllInWithout(two, i, source);
      ArrivingPermutes(source, front, rest, key);
      assert one == front + [last];
      LastArrives(source, front, last, two, i, key);
    }
  }

  lemma LastArrives(source: Fields, front: seq<string>, last: string, two: seq<string>, i: nat, key: string)
    requires WordsCommute(source, key) && i < |two| && AllIn(two, source) && two[i] == last
    requires Arriving(source, front, key) == Arriving(source, two[..i] + two[i + 1..], key)
    ensures Arriving(source, front + [last], key) == Arriving(source, two, key)
  {
    TakenOut(source, two, i, key);
    ArrivingSnoc(source, front, last, key);
  }

  /** Two keys of one end-to-end name that Connection does not list, with values that read differently joined
      one way and the other. */
  ghost predicate Clash(source: Fields, a: string, b: string) {
    && a in source && b in source && Canonical(a) == Canonical(b) && !IsHopByHopHeader(a)
    && Canonical(a) !in TokensOf(ValuesOf(source, Canonical("Connection")))
    && source[a] + source[b] != source[b] + source[a]
  }

  ghost predicate Commuting(source: Fields) {
    forall a, b :: !Clash(source, a, b)
  }

  lemma CommutingWords(source: Fields, key: string)
    requires Commuting(source) && key !in TokensOf(ValuesOf(source, Canonical("Connection")))
    ensures WordsCommute(source, key)
  {
    forall a, b | a in source && b in source
      ensures Word(source, a, key) + Word(source, b, key) == Word(source, b, key) + Word(source, a, key)
    {
      if Canonical(a) == key && Canonical(b) == key {
        SameHop(a, b);
        assert !Clash(source, a, b);
      }
    }
  }

  lemma SameHop(a: string, b: string)
    requires Canonical(a) == Canonical(b)
    ensures IsHopByHopHeader(a) == IsHopByHopHeader(b)
  {
  }

  ghost predicate OrderFree(before: Fields, source: Fields) {
    forall one, two, afterOne, afterTwo ::
      IteratesOver(one, source) && IteratesOver(two, source)
      && Copied(before, source, one, afterOne) && Copied(before, source, two, afterTwo)
      ==> afterOne == afterTwo
  }

  lemma SameCopies(before: Fields, source: Fields, one: seq<string>, two: seq<string>, afterOne: Fields, afterTwo: Fields)
    requires Commuting(source) && IteratesOver(one, source) && IteratesOver(two, source)
    requires Copied(before, source, one, afterOne) && Copied(before, source, two, afterTwo)
    ensures afterOne == afterTwo
  {
    var listed := TokensOf(ValuesOf(source, Canonical("Connection")));
    var mergedOne :| Merged(before, source, one, mergedOne) && afterOne == mergedOne - listed;
    var mergedTwo :| Merged(before, source, two, mergedTwo) && afterTwo == mergedTwo - listed;
    forall key | key !in listed
      ensures (key in mergedOne <==> key in mergedTwo) && ValuesOf(mergedOne, key) == ValuesOf(mergedTwo, key)
    {
      CommutingWords(source, key);
      forall i | 0 <= i < |two| ensures two[i] in source { assert two[i] in two; }
      ArrivingPermutes(source, one, two, key);
      assert MergedAt(before, Arriving(source, one, key), mergedOne, key) && MergedAt(before, Arriving(source, two, key), mergedTwo, key);
    }
    forall key | key in afterOne && key in afterTwo ensures afterOne[key] == afterTwo[key] {
      assert ValuesOf(mergedOne, key) == ValuesOf(mergedTwo, key);
    }
  }

  // ---------- A pair that does not commute shows ----------

  lemma {:induction false} OrderOf(names: set<string>) returns (order: seq<string>)
    ensures (forall i, j :: 0 <= i < j < |order| ==> order[i] != order[j]) && forall name :: name in order <==> name in names
    decreases |names|
  {
    if names == {} { return []; }
    var name :| name in names;
    var rest := OrderOf(names - {name});
    order := rest + [name];
  }

  lemma {:induction false} MergeExists(before: Fields, source: Fields, order: seq<string>, i: nat) returns (merged: Fields)
    requires i <= |order| && forall k :: 0 <= k < |order| ==> order[k] in source
    ensures Merged(before, source, order[..i], merged)
    decreases i
  {
    if i == 0 { return before; }
    var fields := MergeExists(before, source, order, i - 1);
    MergedMore(before, source, order, i - 1, fields);
    merged := if IsHopByHopHeader(order[i - 1]) then fields else AddedAll(fields, order[i - 1], source[order[i - 1]]);
  }

  lemma CopyExists(before: Fields, source: Fields, order: seq<string>, key: string) returns (after: Fields)
    requires IteratesOver(order, source) && key !in TokensOf(ValuesOf(source, Canonical("Connection")))
    ensures Copied(before, source, order, after) && ValuesOf(after, key) == ValuesOf(before, key) + Arriving(source, order, key)
  {
    assert forall k :: 0 <= k < |order| ==> order[k] in order;
    var merged := MergeExists(before, source, order, |order|);
    assert order[..|order|] == order;
    assert MergedAt(before, Arriving(source, order, key), merged, key);
    after := merged - TokensOf(ValuesOf(source, Canonical("Connection")));
  }

  lemma ArrivingPair(source: Fields, a: string, b: string, key: string)
    requires a in source && b in source && Canonical(a) == key && Canonical(b) == key && !IsHopByHopHeader(a)
    ensures Arriving(source, [a, b], key) == source[a] + source[b]
  {
    SameHop(a, b);
    assert [a, b] == [a] + [b] && [a] == [] + [a];
    ArrivingSnoc(source, [a], b, key);
    ArrivingSnoc(source, [], a, key);
  }

  lemma PairFirst(source: Fields, a: string, b: string, rest: seq<string>, key: string)
    requires a in source && b in source && Canonical(a) == key && Canonical(b) == key && !IsHopByHopHeader(a)
    ensures Arriving(source, [a, b] + rest, key) == source[a] + source[b] + Arriving(source, rest, key)
  {
    ArrivingPair(source, a, b, key);
    ArrivingConcat(source, [a, b], rest, key);
  }

  lemma PairOrder(source: Fields, a: string, b: string, rest: seq<string>)
    requires a in source && b in source && a != b
    requires (forall i, j :: 0 <= i < j < |rest| ==> rest[i] != rest[j]) && forall name :: name in rest <==> name in source.Keys - {a, b}
    ensures IteratesOver([a, b] + rest, source)
  {
    var order := [a, b] + rest;
    forall i, j | 0 <= i < j < |order| ensures order[i] != order[j] {
      if j >= 2 { assert order[j] == rest[j - 2] && rest[j - 2] in rest; }
      if i >= 2 { assert order[i] == rest[i - 2]; }
    }
    forall name ensures name in order <==> name in source { assert order[0] == a && order[1] == b; }
  }

  lemma PairShows(before: Fields, source: Fields, a: string, b: string)
    requires Clash(source, a, b)
    ensures !OrderFree(before, source)
  {
    var key := Canonical(a);
    var rest := OrderOf(source.Keys - {a, b});
    PairOrder(source, a, b, rest);
    PairOrder(source, b, a, rest);
    SameHop(a, b);
    PairFirst(source, a, b, rest, key);
    PairFirst(source, b, a, rest, key);
    var afterOne := CopyExists(before, source, [a, b] + rest, key);
    var afterTwo := CopyExists(before, source, [b, a] + rest, key);
    PairDiffers(ValuesOf(before, key), source[a], source[b], Arriving(source, rest, key));
    NotFree(before, source, [a, b] + rest, [b, a] + rest, afterOne, afterTwo, key);
  }

  lemma NotFree(before: Fields, source: Fields, one: seq<string>, two: seq<string>, afterOne: Fields, afterTwo: Fields, key: string)
    requires IteratesOver(one, source) && IteratesOver(two, source)
    requires Copied(before, source, one, afterOne) && Copied(before, source, two, afterTwo)
    requires ValuesOf(afterOne, key) != ValuesOf(afterTwo, key)
    ensures !OrderFree(before, source)
  {
  }

  lemma PairDiffers<T>(s: seq<T>, x: seq<T>, y: seq<T>, r: seq<T>)
    requires x + y != y + x
    ensures s + (x + y + r) != s + (y + x + r)
  {
    assert (s + (x + y + r))[|s|..|s| + |x| + |y|] == x + y;
    assert (s + (y + x + r))[|s|..|s| + |x| + |y|] == y + x;
  }

  /** Copying is independent of the iteration order exactly if the source commutes. */
  lemma OrderIndependentIff(before: Fields, source: Fields)
    ensures OrderFree(before, source) <==> Commuting(source)
  {
    if Commuting(source) {
      forall one, two, afterOne, afterTwo | IteratesOver(one, source) && IteratesOver(two, source)
          && Copied(before, source, one, afterOne) && Copied(before, source, two, afterTwo)
        ensures afterOne == afterTwo
      {
        SameCopies(before, source, one, two, afterOne, afterTwo);
      }
    } else {
      var a, b :| Clash(source, a, b);
      PairShows(before, source, a, b);
    }
  }

  // ---------- The upstream request ----------

  method StripAuthHeaders(headers: Header)
    modifies headers
    ensures headers.fields == old(headers.fields) - {"Authorization", "X-Api-Key"}
  {
    AuthorizationName();
    ApiKeyName("X-Api-Key");
    ApiKeyName("X-API-Key");
    headers.Del("Authorization");
    headers.Del("X-Api-Key");
    headers.Del("X-API-Key");
  }

  function CredentialName(mode: string): string {
    if mode == "x_api_key" then "X-Api-Key" else "Authorization"
  }

  function Credential(mode: string, apiKey: string): string {
    if mode == "x_api_key" then apiKey else "Bearer " + apiKey
  }

  method ApplyUpstreamAuth(headers: Header, mode: string, apiKey: string)
    modifies headers
    ensures headers.fields == old(headers.fields)[CredentialName(mode) := [Credential(mode, apiKey)]]
  {
    AuthorizationName();
    ApiKeyName("x-api-key");
    if mode == "x_api_key" {
      headers.Set("x-api-key", apiKey);
    } else {
      headers.Set("Authorization", "Bearer " + apiKey);
    }
  }

  /** The upstream request carries exactly one credential, the gateway's own, whatever the client sent - also
      if it listed the credential's name in Connection.  Every other header is the client's, without hop-by-hop
      and listed names. */
  ghost predicate Outbound(client: Fields, mode: string, apiKey: string, out: Fields) {
    var listed := TokensOf(ValuesOf(client, "Connection"));
    && (if mode == "x_api_key" then ValuesOf(out, "X-Api-Key") == [apiKey] && "Authorization" !in out
        else ValuesOf(out, "Authorization") == ["Bearer " + apiKey] && "X-Api-Key" !in out)
    && (forall key :: key !in {"Authorization", "X-Api-Key"} ==>
          ValuesOf(out, key) == if key in listed || EndsHere(key) then [] else ValuesOf(client, key))
  }

  /** The hop-by-hop names of the proxy. */
  predicate EndsHere(key: string) {
    || key == "Connection" || key == "Proxy-Connection" || key == "Keep-Alive" || key == "Proxy-Authenticate"
    || key == "Proxy-Authorization" || key == "Te" || key == "Trailer" || key == "Transfer-Encoding" || key == "Upgrade"
  }

  lemma OutboundHolds(client: Fields, order: seq<string>, copied: Fields, mode: string, apiKey: string)
    requires CanonicalKeys(client) && IteratesOver(order, client) && Copied(map[], client, order, copied)
    ensures Outbound(client, mode, apiKey, (copied - {"Authorization", "X-Api-Key"})[CredentialName(mode) := [Credential(mode, apiKey)]])
  {
    var out := (copied - {"Authorization", "X-Api-Key"})[CredentialName(mode) := [Credential(mode, apiKey)]];
    var listed := TokensOf(ValuesOf(client, "Connection"));
    forall key | key !in {"Authorization", "X-Api-Key"}
      ensures ValuesOf(out, key) == if key in listed || EndsHere(key) then [] else ValuesOf(client, key)
    {
      CopiedHeader(client, order, copied, key, listed);
    }
  }

  lemma CopiedHeader(client: Fields, order: seq<string>, copied: Fields, key: string, listed: set<string>)
    requires CanonicalKeys(client) && IteratesOver(order, client) && Copied(map[], client, order, copied)
    requires listed == TokensOf(ValuesOf(client, "Connection"))
    ensures ValuesOf(copied, key) == if key in listed || EndsHere(key) then [] else ValuesOf(client, key)
  {
    ConnectionName();
    CopyResult(map[], client, order, copied, key);
    if key in client { HopName(key); }
  }

  lemma HopName(key: string)
    requires Canonical(key) == key
    ensures IsHopByHopHeader(key) <==> EndsHere(key)
  {
  }

  /** What a Connection header lists: the names between its commas, without the spaces around them. */
  lemma ListedNames(parts: seq<string>)
    requires parts != [] && forall part :: part in parts ==> ',' !in part
    ensures TokensOf([Join(parts, ',')]) == set part | part in parts :: Canonical(Trim(part))
  {
    SplitJoin(parts, ',');
    var value := Join(parts, ',');
    assert Split(value, ',') == parts;
    forall part | part in parts ensures Canonical(Trim(part)) in TokensOf([value]) { assert value in [value] && part in Split(value, ','); }
  }

  method BuildUpstreamHeaders(client: Header, order: seq<string>, mode: string, apiKey: string) returns (headers: Header)
    requires CanonicalKeys(client.fields) && IteratesOver(order, client.fields)
    ensures fresh(headers) && Outbound(client.fields, mode, apiKey, headers.fields)
  {
    headers := new Header();
    CopyHeaders(headers, client, order);
    OutboundHolds(client.fields, order, headers.fields, mode, apiKey);
    StripAuthHeaders(headers);
    ApplyUpstreamAuth(headers, mode, apiKey);
  }
}
