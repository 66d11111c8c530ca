/** Model redirects: how they are saved and looked up, and how a request body is rewritten. */
module ModelRewrite {
  import opened Wrappers
  import opened Text

  // ---------- Request bodies ----------

  /** What a top-level field holds: text, null, or any other JSON value, kept as it is written. */
  datatype Json = JString(s: string) | JNull | JOther(raw: string)

  type Fields = seq<(string, Json)>

  /** A body by its top level: the fields of an object in document order, null, another JSON value, or no JSON. */
  datatype Body = Object(fields: Fields) | NullBody | OtherValue | Malformed

  predicate NamesModel(key: string) {
    Lower(key) == "model"
  }

  /** What decoding leaves in the struct's only field, None on a type error: names match without regard to
      case, the last match wins, null leaves what was there. */
  function ModelAfter(fields: Fields): Option<string> {
    if fields == [] then Some("")
    else
      var last, before := fields[|fields| - 1], ModelAfter(fields[..|fields| - 1]);
      if before.None? || !NamesModel(last.0) then before
      else
        match last.1
        case JString(s) => Some(s)
        case JNull => before
        case JOther(_) => None
  }

  function ExtractModel(body: Body): string {
    if !body.Object? || ModelAfter(body.fields).None? then "" else Trim(ModelAfter(body.fields).value)
  }

  // ---------- Maps of raw fields, written with their keys ascending ----------

  /** Decoding into a map: of equal keys the last one wins. */
  function LastWins<V>(fields: seq<(string, V)>): map<string, V> {
    if fields == [] then map[]
    else LastWins(fields[..|fields| - 1])[fields[|fields| - 1].0 := fields[|fields| - 1].1]
  }

  predicate Less(a: string, b: string) {
    b != "" && (a == "" || a[0] < b[0] || (a[0] == b[0] && Less(a[1..], b[1..])))
  }

  lemma {:induction false} LessTotal(a: string, b: string)
    ensures !(Less(a, b) && Less(b, a)) && !Less(a, a) && (a == b || Less(a, b) || Less(b, a))
    decreases |a|
  {
    if a != "" {
      LessTotal(a[1..], a[1..]);
      if b != "" {
        LessTotal(a[1..], b[1..]);
        assert a == [a[0]] + a[1..] && b == [b[0]] + b[1..];
      }
    }
  }

  lemma {:induction false} LessTransitive(a: string, b: string, c: string)
    requires Less(a, b) && Less(b, c)
    ensures Less(a, c)
    decreases |a|
  {
    if a != "" && a[0] == b[0] && b[0] == c[0] { LessTransitive(a[1..], b[1..], c[1..]); }
  }

  ghost predicate IsLeast(keys: set<string>, k: string) {
    k in keys && forall j :: j in keys && j != k ==> Less(k, j)
  }

  lemma {:induction false} HasLeast(keys: set<string>)
    requires keys != {}
    ensures exists k :: IsLeast(keys, k)
    decreases |keys|
  {
    var x :| x in keys;
    var rest := keys - {x};
    if rest == {} {
      assert forall j :: j in keys ==> j == x || j in rest;
      assert IsLeast(keys, x);
    } else {
      HasLeast(rest);
      var k :| IsLeast(rest, k);
      LessTotal(x, k);
      forall j | j in rest && Less(x, k) && j != k ensures Less(x, j) { LessTransitive(x, k, j); }
      assert IsLeast(keys, if Less(x, k) then x else k);
    }
  }

  ghost function Least(keys: set<string>): (k: string)
    requires keys != {}
    ensures IsLeast(keys, k)
  {
    HasLeast(keys);
    var k :| IsLeast(keys, k);
    k
  }

  /** Encoding a map: its entries with the keys in ascending order. */
  ghost function Marshal<V>(m: map<string, V>): seq<(string, V)>
    decreases |m|
  {
    if m == map[] then []
    else
      var k := Least(m.Keys);
      assert |m - {k}| < |m| by { assert (m - {k}).Keys == m.Keys - {k}; }
      [(k, m[k])] + Marshal(m - {k})
  }

  ghost predicate KeysAscend<V>(fields: seq<(string, V)>) {
    forall i, j :: 0 <= i < j < |fields| ==> Less(fields[i].0, fields[j].0)
  }

  ghost predicate Lists<V>(fields: seq<(string, V)>, m: map<string, V>) {
    && (forall i :: 0 <= i < |fields| ==> fields[i].0 in m && m[fields[i].0] == fields[i].1)
    && (forall k :: k in m ==> (k, m[k]) in fields)
  }

  lemma ListsMore<V>(m: map<string, V>, k: string, rest: seq<(string, V)>)
    requires IsLeast(m.Keys, k) && KeysAscend(rest) && Lists(rest, m - {k})
    ensures KeysAscend([(k, m[k])] + rest) && Lists([(k, m[k])] + rest, m)
  {
    var fields := [(k, m[k])] + rest;
    forall j | 0 <= j < |rest| ensures Less(k, rest[j].0) {
      assert rest[j].0 in m - {k};
      assert rest[j].0 in m.Keys;
    }
    forall j | j in m ensures (j, m[j]) in fields {
      if j == k { assert fields[0] == (k, m[k]); } else { assert (j, (m - {k})[j]) in rest; }
    }
  }

  lemma {:induction false} MarshalResult<V>(m: map<string, V>)
    ensures KeysAscend(Marshal(m)) && Lists(Marshal(m), m)
    decreases |m|
  {
    if m != map[] {
      var k := Least(m.Keys);
      assert |m - {k}| < |m| by { assert (m - {k}).Keys == m.Keys - {k}; }
      MarshalResult(m - {k});
      ListsMore(m, k, Marshal(m - {k}));
    }
  }

  lemma {:induction false} LastWinsMembers<V>(fields: seq<(string, V)>)
    ensures forall k :: k in LastWins(fields) ==> (k, LastWins(fields)[k]) in fields
    ensures forall e :: e in fields ==> e.0 in LastWins(fields)
    decreases |fields|
  {
    if fields != [] {
      LastWinsMembers(fields[..|fields| - 1]);
      assert fields == fields[..|fields| - 1] + [fields[|fields| - 1]];
    }
  }

  /** Encoding and decoding a map gives it back. */
  lemma MarshalRoundTrip<V>(m: map<string, V>)
    ensures LastWins(Marshal(m)) == m
  {
    MarshalResult(m);
    var fields := Marshal(m);
    LastWinsMembers(fields);
    var back := LastWins(fields);
    forall k | k in m ensures k in back { assert (k, m[k]) in fields; }
    forall k | k in back ensures k in m && back[k] == m[k] {
      var i :| 0 <= i < |fields| && fields[i] == (k, back[k]);
    }
  }

  // ---------- Rewriting ----------

  datatype Error = NotJson | NilMapWrite

  ghost function ReplaceModel(body: Body, target: string): Result<Body, Error> {
    match body
    case Object(fields) => Ok(Object(Marshal(LastWins(fields)["model" := JString(target)])))
    case NullBody => Err(NilMapWrite)
    case _ => Err(NotJson)
  }

  ghost function RewriteModelRequest(redirects: map<string, string>, body: Body, model: string): Result<Body, Error> {
    if model == "" || model !in redirects then Ok(body) else ReplaceModel(body, redirects[model])
  }

  /** Capital letters precede small ones, so the name in small letters is the last of its variants. */
  lemma {:induction false} SmallLettersLast(key: string, small: string)
    requires Lower(key) == small && key != small && forall c :: c in small ==> 'a' <= c <= 'z'
    ensures Less(key, small)
    decreases |key|
  {
    if key[0] == small[0] {
      assert key == [key[0]] + key[1..] && small == [small[0]] + small[1..];
      assert forall c :: c in small[1..] ==> c in small;
      SmallLettersLast(key[1..], small[1..]);
    }
  }

  predicate NoTypeError(fields: Fields) {
    forall e :: e in fields ==> NamesModel(e.0) ==> !e.1.JOther?
  }

  lemma {:induction false} DecodesIff(fields: Fields)
    ensures ModelAfter(fields).Some? <==> NoTypeError(fields)
    decreases |fields|
  {
    if fields != [] {
      DecodesIff(fields[..|fields| - 1]);
      assert fields == fields[..|fields| - 1] + [fields[|fields| - 1]];
    }
  }

  lemma NoVariantAfter(key: string)
    requires Less("model", key)
    ensures !NamesModel(key)
  {
    LessTotal(key, "model");
    if NamesModel(key) { SmallLettersLast(key, "model"); }
  }

  lemma {:induction false} AscendingModel(fields: Fields, target: string)
    requires KeysAscend(fields) && NoTypeError(fields) && ("model", JString(target)) in fields
    ensures ModelAfter(fields) == Some(target)
    decreases |fields|
  {
    var before, last := fields[..|fields| - 1], fields[|fields| - 1];
    assert fields == before + [last];
    DecodesIff(before);
    if last != ("model", JString(target)) {
      var i :| 0 <= i < |before| && before[i] == ("model", JString(target));
      assert Less("model", last.0);
      NoVariantAfter(last.0);
      AscendingModel(before, target);
    }
  }

  lemma StillDecodes(fields: Fields, target: string, after: Fields)
    requires NoTypeError(fields) && Lists(after, LastWins(fields)["model" := JString(target)])
    ensures NoTypeError(after)
  {
    LastWinsMembers(fields);
    forall e | e in after && NamesModel(e.0) ensures !e.1.JOther? {
      var i :| 0 <= i < |after| && after[i] == e;
      if e.0 != "model" { assert (e.0, LastWins(fields)[e.0]) in fields; }
    }
  }

  lemma RewrittenFields(fields: Fields, target: string)
    requires NoTypeError(fields)
    ensures var m := LastWins(fields)["model" := JString(target)];
      KeysAscend(Marshal(m)) && LastWins(Marshal(m)) == m && ModelAfter(Marshal(m)) == Some(target)
  {
    var m := LastWins(fields)["model" := JString(target)];
    MarshalResult(m);
    MarshalRoundTrip(m);
    StillDecodes(fields, target, Marshal(m));
    assert "model" in m;
    AscendingModel(Marshal(m), target);
  }

  /** Rewrite then read back: the rewritten body is an object with every key once, in ascending order; every
      other field keeps its last value; and reading the model from it gives the trimmed target, whatever
      variants of the name it also has. */
  lemma RewriteThenRead(redirects: map<string, string>, body: Body)
    requires ExtractModel(body) in redirects && ExtractModel(body) != ""
    ensures body.Object? && RewriteModelRequest(redirects, body, ExtractModel(body)).Ok?
    ensures var target := redirects[ExtractModel(body)]; var after := RewriteModelRequest(redirects, body, ExtractModel(body)).value;
      && after.Object? && KeysAscend(after.fields)
      && LastWins(after.fields) == LastWins(body.fields)["model" := JString(target)]
      && ExtractModel(after) == Trim(target)
  {
    DecodesIff(body.fields);
    RewrittenFields(body.fields, redirects[ExtractModel(body)]);
  }

  /** No request fails over a redirect: a body that is null, no object or no JSON has no model and is passed on
      as it is, so the write into a nil map is never reached. */
  lemma RewritingNeverFails(redirects: map<string, string>, body: Body)
    ensures RewriteModelRequest(redirects, body, ExtractModel(body)).Ok?
    ensures ExtractModel(body) == "" || ExtractModel(body) !in redirects ==>
              RewriteModelRequest(redirects, body, ExtractModel(body)) == Ok(body)
    ensures ExtractModel(body) != "" ==> body.Object?
  {
  }

  /** No spelling of the name but the one in small letters ends with a value of another type. */
  predicate OthersDecode(fields: Fields) {
    forall key :: key in LastWins(fields) && NamesModel(key) && key != "model" ==> !LastWins(fields)[key].JOther?
  }

  lemma OthersDecodeAfter(fields: Fields, target: string, after: Fields)
    requires Lists(after, LastWins(fields)["model" := JString(target)])
    ensures NoTypeError(after) <==> OthersDecode(fields)
  {
    if OthersDecode(fields) {
      forall e | e in after && NamesModel(e.0) ensures !e.1.JOther? { var i :| 0 <= i < |after| && after[i] == e; }
    }
    if NoTypeError(after) {
      forall key | key in LastWins(fields) && NamesModel(key) && key != "model" ensures !LastWins(fields)[key].JOther? {
        var m := LastWins(fields)["model" := JString(target)];
        assert key in m && m[key] == LastWins(fields)[key];
        assert (key, m[key]) in after;
      }
    }
  }

  /** For any object, also one that has no model to redirect: after replacing, the model reads as the trimmed
      target exactly if no other spelling of the name is of another type - or if the target is blank anyway. */
  lemma ReplaceReadsBackIff(fields: Fields, target: string)
    ensures ReplaceModel(Object(fields), target).Ok?
    ensures ExtractModel(ReplaceModel(Object(fields), target).value) == Trim(target) <==> OthersDecode(fields) || Trim(target) == ""
  {
    var m := LastWins(fields)["model" := JString(target)];
    MarshalResult(m);
    OthersDecodeAfter(fields, target, Marshal(m));
    DecodesIff(Marshal(m));
    if NoTypeError(Marshal(m)) {
      assert "model" in m;
      AscendingModel(Marshal(m), target);
    }
  }

  // ---------- Which field names the model ----------

  /** "model" in any mixture of small and capital letters. */
  lemma NamesModelIff(key: string)
    ensures NamesModel(key) <==>
              |key| == 5 && (key[0] == 'm' || key[0] == 'M') && (key[1] == 'o' || key[1] == 'O') && (key[2] == 'd' || key[2] == 'D')
              && (key[3] == 'e' || key[3] == 'E') && (key[4] == 'l' || key[4] == 'L')
  {
    if |key| == 5 {
      assert Lower(key) == [LowerChar(key[0]), LowerChar(key[1]), LowerChar(key[2]), LowerChar(key[3]), LowerChar(key[4])];
    }
  }

  /** The i-th field is the last text under any spelling of the name: behind it there are only nulls. */
  ghost predicate LastModel(fields: Fields, i: nat) {
    && i < |fields| && NamesModel(fields[i].0) && fields[i].1.JString?
    && forall j :: i < j < |fields| && NamesModel(fields[j].0) ==> fields[j].1 == JNull
  }

  /** Where a body decodes, the model is the last text among its spellings, and empty if there is none. */
  lemma {:induction false} ModelIsLastText(fields: Fields)
    requires NoTypeError(fields)
    ensures ModelAfter(fields).Some?
    ensures forall i: nat :: LastModel(fields, i) ==> ModelAfter(fields).value == fields[i].1.s
    ensures (forall i: nat :: !LastModel(fields, i)) ==> ModelAfter(fields).value == ""
    decreases |fields|
  {
    if fields != [] {
      var front, last := fields[..|fields| - 1], fields[|fields| - 1];
      assert fields == front + [last];
      ModelIsLastText(front);
      if NamesModel(last.0) && last.1.JString? {
        assert LastModel(fields, |front|);
      } else {
        forall i: nat ensures LastModel(fields, i) <==> LastModel(front, i) { LastModelBefore(fields, front, last, i); }
      }
    }
  }

  lemma LastModelBefore(fields: Fields, front: Fields, last: (string, Json), i: nat)
    requires fields == front + [last] && (NamesModel(last.0) ==> last.1 == JNull)
    ensures LastModel(fields, i) <==> LastModel(front, i)
  {
    assert fields[|front|] == last && forall j :: 0 <= j < |front| ==> fields[j] == front[j];
    if LastModel(front, i) {
      forall j | i < j < |fields| && NamesModel(fields[j].0) ensures fields[j].1 == JNull { assert j < |front| ==> fields[j] == front[j]; }
    }
  }

  /** Of equal keys the map keeps the last one. */
  lemma {:induction false} LastOneWins<V>(fields: seq<(string, V)>, i: nat)
    requires i < |fields| && forall j :: i < j < |fields| ==> fields[j].0 != fields[i].0
    ensures fields[i].0 in LastWins(fields) && LastWins(fields)[fields[i].0] == fields[i].1
    decreases |fields|
  {
    if i < |fields| - 1 { LastOneWins(fields[..|fields| - 1], i); }
  }

  // ---------- The loops ----------

  method DecodeFields<V>(fields: seq<(string, V)>) returns (payload: map<string, V>)
    ensures payload == LastWins(fields)
  {
    payload := map[];
    for i := 0 to |fields|
      invariant payload == LastWins(fields[..i])
    {
      assert fields[..i + 1][..i] == fields[..i];
      payload := payload[fields[i].0 := fields[i].1];
    }
    assert fields[..|fields|] == fields;
  }

  lemma LeastIsUnique(keys: set<string>, k: string)
    requires IsLeast(keys, k)
    ensures Least(keys) == k
  {
    LessTotal(k, Least(keys));
  }

  method EncodeFields<V>(payload: map<string, V>) returns (fields: seq<(string, V)>)
    ensures fields == Marshal(payload)
  {
    fields := [];
    var rest := payload;
    while rest != map[]
      invariant fields + Marshal(rest) == Marshal(payload)
      decreases |rest|
    {
      HasLeast(rest.Keys);
      ghost var least :| IsLeast(rest.Keys, least);
      var k :| k in rest.Keys && forall j | j in rest.Keys :: j == k || Less(k, j);
      LeastIsUnique(rest.Keys, k);
      assert (rest - {k}).Keys == rest.Keys - {k};
      fields := fields + [(k, rest[k])];
      rest := rest - {k};
    }
  }

  // ---------- Saving redirects ----------

  datatype Redirect = Redirect(downstream: string, upstream: string)

  datatype RedirectError = Incomplete(index: nat) | Duplicate(model: string)

  function TrimmedRedirect(input: Redirect): Redirect {
    Redirect(Trim(input.downstream), Trim(input.upstream))
  }

  function TrimmedRedirects(inputs: seq<Redirect>): (r: seq<Redirect>)
    ensures |r| == |inputs|
  {
    if inputs == [] then [] else TrimmedRedirects(inputs[..|inputs| - 1]) + [TrimmedRedirect(inputs[|inputs| - 1])]
  }

  lemma {:induction false} TrimmedAt(inputs: seq<Redirect>, i: nat)
    requires i < |inputs|
    ensures TrimmedRedirects(inputs)[i] == TrimmedRedirect(inputs[i])
    decreases |inputs|
  {
    if i < |inputs| - 1 { TrimmedAt(inputs[..|inputs| - 1], i); }
  }

  predicate Complete(redirect: Redirect) {
    redirect.downstream != "" && redirect.upstream != ""
  }

  predicate Distinct(redirects: seq<Redirect>) {
    forall i, j :: 0 <= i < j < |redirects| ==> redirects[i].downstream != redirects[j].downstream
  }

  predicate Acceptable(redirects: seq<Redirect>) {
    (forall i :: 0 <= i < |redirects| ==> Complete(redirects[i])) && Distinct(redirects)
  }

  /** The first redirect that is not acceptable decides the error. */
  ghost predicate FirstFault(redirects: seq<Redirect>, i: nat, e: RedirectError) {
    && i < |redirects| && Acceptable(redirects[..i])
    && match e
       case Incomplete(index) => index == i && !Complete(redirects[i])
       case Duplicate(model) =>
         Complete(redirects[i]) && model == redirects[i].downstream && exists k :: 0 <= k < i && redirects[k].downstream == model
  }

  ghost predicate Faulty(redirects: seq<Redirect>, e: RedirectError) {
    exists i :: FirstFault(redirects, i, e)
  }

  lemma IncompleteAt(redirects: seq<Redirect>, i: nat)
    requires i < |redirects| && Acceptable(redirects[..i]) && !Complete(redirects[i])
    ensures Faulty(redirects, Incomplete(i)) && !Acceptable(redirects)
  {
    assert FirstFault(redirects, i, Incomplete(i));
  }

  lemma DuplicateAt(redirects: seq<Redirect>, i: nat, seen: set<string>)
    requires i < |redirects| && Acceptable(redirects[..i]) && Seen(redirects[..i], seen)
    requires Complete(redirects[i]) && redirects[i].downstream in seen
    ensures Faulty(redirects, Duplicate(redirects[i].downstream)) && !Acceptable(redirects)
  {
    assert FirstFault(redirects, i, Duplicate(redirects[i].downstream));
  }

  lemma OneMore(redirects: seq<Redirect>, redirect: Redirect)
    requires Acceptable(redirects) && Complete(redirect)
    requires forall k :: 0 <= k < |redirects| ==> redirects[k].downstream != redirect.downstream
    ensures Acceptable(redirects + [redirect])
  {
  }

  ghost predicate Seen(redirects: seq<Redirect>, seen: set<string>) {
    && (forall k :: 0 <= k < |redirects| ==> redirects[k].downstream in seen)
    && (forall m :: m in seen ==> exists k :: 0 <= k < |redirects| && redirects[k].downstream == m)
  }

  lemma SeenMore(redirects: seq<Redirect>, seen: set<string>, redirect: Redirect)
    requires Seen(redirects, seen)
    ensures Seen(redirects + [redirect], seen + {redirect.downstream})
  {
    var after := redirects + [redirect];
    forall m | m in seen + {redirect.downstream} ensures exists k :: 0 <= k < |after| && after[k].downstream == m {
      if m in seen {
        var k :| 0 <= k < |redirects| && redirects[k].downstream == m;
        assert after[k].downstream == m;
      } else {
        assert after[|redirects|].downstream == m;
      }
    }
  }

  ghost predicate Accepted(all: seq<Redirect>, i: nat, redirects: seq<Redirect>, seen: set<string>) {
    i <= |all| && redirects == all[..i] && Acceptable(redirects) && Seen(redirects, seen)
  }

  lemma AcceptNext(all: seq<Redirect>, i: nat, redirects: seq<Redirect>, seen: set<string>, next: Redirect)
    requires i < |all| && next == all[i] && Accepted(all, i, redirects, seen)
    ensures !Complete(next) ==> Faulty(all, Incomplete(i)) && !Acceptable(all)
    ensures Complete(next) && next.downstream in seen ==> Faulty(all, Duplicate(next.downstream)) && !Acceptable(all)
    ensures Complete(next) && next.downstream !in seen ==> Accepted(all, i + 1, redirects + [next], seen + {next.downstream})
  {
    if !Complete(next) {
      IncompleteAt(all, i);
    } else if next.downstream in seen {
      DuplicateAt(all, i, seen);
    } else {
      OneMore(redirects, next);
      SeenMore(redirects, seen, next);
    }
  }

  method NormalizeModelRedirects(inputs: seq<Redirect>) returns (r: Result<seq<Redirect>, RedirectError>)
    ensures r.Ok? <==> Acceptable(TrimmedRedirects(inputs))
    ensures r.Ok? ==> r.value == TrimmedRedirects(inputs)
    ensures r.Err? ==> Faulty(TrimmedRedirects(inputs), r.error)
  {
    ghost var all := TrimmedRedirects(inputs);
    var redirects: seq<Redirect> := [];
    var seen: set<string> := {};
    for i := 0 to |inputs|
      invariant Accepted(all, i, redirects, seen)
    {
      var redirect := TrimmedRedirect(inputs[i]);
      TrimmedAt(inputs, i);
      AcceptNext(all, i, redirects, seen, redirect);
      if redirect.downstream == "" || redirect.upstream == "" {
        return Err(Incomplete(i));
      }
      if redirect.downstream in seen {
        return Err(Duplicate(redirect.downstream));
      }
      seen := seen + {redirect.downstream};
      redirects := redirects + [redirect];
    }
    assert redirects == all;
    r := Ok(redirects);
  }

  // ---------- The model_redirects table ----------

  datatype TableError = UniqueViolation(model: string)

  function TableOf(redirects: seq<Redirect>): map<string, string> {
    if redirects == [] then map[]
    else
      var last := redirects[|redirects| - 1];
      TableOf(redirects[..|redirects| - 1])[last.downstream := last.upstream]
  }

  lemma {:induction false} TableOfKeys(redirects: seq<Redirect>)
    ensures forall m :: m in TableOf(redirects) <==> exists i :: 0 <= i < |redirects| && redirects[i].downstream == m
    ensures Distinct(redirects) ==>
              forall i :: 0 <= i < |redirects| ==> TableOf(redirects)[redirects[i].downstream] == redirects[i].upstream
    decreases |redirects|
  {
    if redirects != [] {
      var front, last := redirects[..|redirects| - 1], redirects[|redirects| - 1];
      TableOfKeys(front);
      forall m ensures m in TableOf(redirects) <==> exists i :: 0 <= i < |redirects| && redirects[i].downstream == m {
        if m == last.downstream { assert redirects[|redirects| - 1].downstream == m; }
        if m in TableOf(front) {
          var i :| 0 <= i < |front| && front[i].downstream == m;
          assert redirects[i].downstream == m;
        }
      }
    }
  }

  lemma OneMoreRow(redirects: seq<Redirect>, i: nat)
    requires i < |redirects| && Distinct(redirects[..i])
    ensures TableOf(redirects[..i + 1]) == TableOf(redirects[..i])[redirects[i].downstream := redirects[i].upstream]
    ensures redirects[i].downstream in TableOf(redirects[..i]) ==> !Distinct(redirects)
    ensures redirects[i].downstream !in TableOf(redirects[..i]) ==> Distinct(redirects[..i + 1])
  {
    TableOfKeys(redirects[..i]);
    assert redirects[..i + 1][..i] == redirects[..i];
    if redirects[i].downstream in TableOf(redirects[..i]) {
      var k :| 0 <= k < i && redirects[..i][k].downstream == redirects[i].downstream;
    } else {
      forall k | 0 <= k < i ensures redirects[k].downstream != redirects[i].downstream { assert redirects[..i][k] == redirects[k]; }
    }
  }

  class RedirectTable {
    var rows: map<string, string>

    constructor ()
      ensures rows == map[]
    {
      rows := map[];
    }

    /** One transaction: the table is replaced, or a repeated downstream model rolls everything back. */
    method ReplaceModelRedirects(redirects: seq<Redirect>) returns (r: Result<(), TableError>)
      modifies this
      ensures r.Ok? <==> Distinct(redirects)
      ensures rows == if Distinct(redirects) then TableOf(redirects) else old(rows)
    {
      var before := rows;
      rows := map[];
      for i := 0 to |redirects|
        invariant Distinct(redirects[..i]) && rows == TableOf(redirects[..i])
      {
        OneMoreRow(redirects, i);
        if redirects[i].downstream in rows {
          rows := before;
          return Err(UniqueViolation(redirects[i].downstream));
        }
        rows := rows[redirects[i].downstream := redirects[i].upstream];
      }
      assert redirects[..|redirects|] == redirects;
      r := Ok(());
    }

    method LookupModelRedirect(model: string) returns (r: Option<string>)
      ensures r == if model in rows then Some(rows[model]) else None
    {
      r := if model in rows then Some(rows[model]) else None;
    }

    /** Called with the model of the body, as the handler does, it never fails; a redirected body keeps its other
        fields and reads as the redirect's target, any other body is passed on. */
    method Rewrite(body: Body, model: string) returns (r: Result<Body, Error>)
      ensures r == RewriteModelRequest(rows, body, model)
      ensures model == ExtractModel(body) ==> r.Ok? && (model == "" || model !in rows ==> r.value == body)
      ensures model == ExtractModel(body) && model != "" && model in rows ==>
                && r.value.Object? && ExtractModel(r.value) == Trim(rows[model])
                && LastWins(r.value.fields) == LastWins(body.fields)["model" := JString(rows[model])]
    {
      if model == "" { return Ok(body); }
      var redirect := LookupModelRedirect(model);
      if redirect.None? { return Ok(body); }
      if body == NullBody { return Err(NilMapWrite); }
      if !body.Object? { return Err(NotJson); }
      var payload := DecodeFields(body.fields);
      payload := payload["model" := JString(redirect.value)];
      var fields := EncodeFields(payload);
      if model == ExtractModel(body) { RewriteThenRead(rows, body); }
      r := Ok(Object(fields));
    }
  }

  lemma SavedRow(redirects: seq<Redirect>, i: nat)
    requires Acceptable(redirects) && i < |redirects|
    ensures redirects[i].downstream != "" && redirects[i].downstream in TableOf(redirects)
    ensures TableOf(redirects)[redirects[i].downstream] == redirects[i].upstream
  {
    assert Complete(redirects[i]);
    TableOfKeys(redirects);
  }

  lemma SavedInput(inputs: seq<Redirect>, i: nat)
    requires Acceptable(TrimmedRedirects(inputs)) && i < |inputs|
    ensures var table := TableOf(TrimmedRedirects(inputs)); var model := Trim(inputs[i].downstream);
      model != "" && model in table && table[model] == Trim(inputs[i].upstream)
  {
    TrimmedAt(inputs, i);
    SavedRow(TrimmedRedirects(inputs), i);
  }

  lemma Routed(table: map<string, string>, body: Body, upstream: string)
    requires var model := ExtractModel(body); model != "" && model in table && table[model] == Trim(upstream)
    ensures var after := RewriteModelRequest(table, body, ExtractModel(body)); after.Ok? && ExtractModel(after.value) == Trim(upstream)
  {
    RewriteThenRead(table, body);
    TrimTwice(upstream);
  }

  /** From the form to the upstream: once inputs are saved, a request for the trimmed downstream model of one of
      them goes out with its trimmed upstream model. */
  lemma RedirectTakesEffect(inputs: seq<Redirect>, i: nat, body: Body)
    requires Acceptable(TrimmedRedirects(inputs)) && i < |inputs| && Trim(inputs[i].downstream) == ExtractModel(body)
    ensures var after := RewriteModelRequest(TableOf(TrimmedRedirects(inputs)), body, ExtractModel(body));
      after.Ok? && ExtractModel(after.value) == Trim(inputs[i].upstream)
  {
    SavedInput(inputs, i);
    Routed(TableOf(TrimmedRedirects(inputs)), body, inputs[i].upstream);
  }

  /** A request for any other model goes out as it came. */
  lemma OtherModelsPass(inputs: seq<Redirect>, body: Body)
    requires forall i :: 0 <= i < |inputs| ==> Trim(inputs[i].downstream) != ExtractModel(body)
    ensures RewriteModelRequest(TableOf(TrimmedRedirects(inputs)), body, ExtractModel(body)) == Ok(body)
  {
    var redirects := TrimmedRedirects(inputs);
    TableOfKeys(redirects);
    if ExtractModel(body) in TableOf(redirects) {
      var i :| 0 <= i < |redirects| && redirects[i].downstream == ExtractModel(body);
      TrimmedAt(inputs, i);
    }
  }
}
