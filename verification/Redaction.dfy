// Redaction of span attributes (instrumentation.ts).
module Redaction {
  import opened UrlEncoded

  const REDACTED_VALUE: string := "[REDACTED]"

  const PII_QUERY_PARAMS: seq<string> :=
    ["email", "password", "token", "access_token", "refresh_token", "api_key", "apiKey"]

  // ---------- query parameters ----------

  predicate HasName(list: seq<Pair>, name: string) {
    exists i :: 0 <= i < |list| && list[i].name == name
  }

  function Without(list: seq<Pair>, name: string): seq<Pair> {
    if list == [] then []
    else (if list[0].name == name then [] else [list[0]]) + Without(list[1..], name)
  }

  // URLSearchParams.set: the first pair of that name takes the value, the others go; with no
  // such pair, one is appended.
  function SetPair(list: seq<Pair>, name: string, value: string): seq<Pair> {
    if list == [] then [Pair(name, value)]
    else if list[0].name == name then [Pair(name, value)] + Without(list[1..], name)
    else [list[0]] + SetPair(list[1..], name, value)
  }

  lemma {:induction false} SetForm(before: seq<Pair>, p: Pair, rest: seq<Pair>, value: string)
    requires !HasName(before, p.name)
    ensures SetPair(before + [p] + rest, p.name, value) == before + [Pair(p.name, value)] + Without(rest, p.name)
    ensures SetPair(before, p.name, value) == before + [Pair(p.name, value)]
  {
    var all := before + [p] + rest;
    if before == [] {
      assert all[0] == p && all[1..] == rest;
    } else {
      assert !HasName(before[1..], p.name) by {
        assert forall i :: 0 <= i < |before| - 1 ==> before[1..][i] == before[i + 1];
      }
      SetForm(before[1..], p, rest, value);
      assert all[0] == before[0] && all[1..] == before[1..] + [p] + rest;
      assert before[0].name != p.name;
    }
  }

  // The reference: pairs outside `names` stay as they are and where they are; of the pairs of
  // a name in `names`, the first stays in place with its value redacted, the later ones go.
  // seen: the names in `names` met so far.
  function Redacted(list: seq<Pair>, names: set<string>, seen: set<string>): seq<Pair> {
    if list == [] then []
    else Kept(list[0], names, seen) + Redacted(list[1..], names, Met(list[0], names, seen))
  }

  function Kept(p: Pair, names: set<string>, seen: set<string>): seq<Pair> {
    if p.name !in names then [p] else if p.name in seen then [] else [Pair(p.name, REDACTED_VALUE)]
  }

  function Met(p: Pair, names: set<string>, seen: set<string>): set<string> {
    if p.name in names then seen + {p.name} else seen
  }

  function PiiNames(): set<string> {
    set name | name in PII_QUERY_PARAMS
  }

  // At most one pair in front of a list.
  lemma InFront(kept: seq<Pair>, rest: seq<Pair>, name: string)
    requires |kept| <= 1
    ensures HasName(kept + rest, name) <==> (kept != [] && kept[0].name == name) || HasName(rest, name)
    ensures kept != [] ==> (kept + rest)[0] == kept[0] && (kept + rest)[1..] == rest
    ensures kept == [] ==> kept + rest == rest
  {
    var all := kept + rest;
    assert forall i :: 0 <= i < |rest| ==> all[|kept| + i] == rest[i];
    if HasName(all, name) {
      var i :| 0 <= i < |all| && all[i].name == name;
      assert i < |kept| || rest[i - |kept|].name == name;
    }
    if kept != [] { assert all[0] == kept[0]; }
  }

  lemma {:induction false} WithoutIsSeen(list: seq<Pair>, names: set<string>, seen: set<string>, name: string)
    requires name !in names
    ensures Without(Redacted(list, names, seen), name) == Redacted(list, names + {name}, seen + {name})
  {
    if list != [] {
      var p := list[0];
      InFront(Kept(p, names, seen), Redacted(list[1..], names, Met(p, names, seen)), name);
      WithoutIsSeen(list[1..], names, Met(p, names, seen), name);
      assert Met(p, names, seen) + {name} == Met(p, names + {name}, seen + {name});
    }
  }

  // One turn of redactSearchParams' loop.
  lemma {:induction false} SetRedactsOneMore(list: seq<Pair>, names: set<string>, seen: set<string>, name: string)
    requires name !in names && name !in seen && HasName(Redacted(list, names, seen), name)
    ensures SetPair(Redacted(list, names, seen), name, REDACTED_VALUE) == Redacted(list, names + {name}, seen)
  {
    if list != [] {
      var p := list[0];
      var rest := Redacted(list[1..], names, Met(p, names, seen));
      InFront(Kept(p, names, seen), rest, name);
      if p.name == name {
        WithoutIsSeen(list[1..], names, seen, name);
      } else {
        SetRedactsOneMore(list[1..], names, Met(p, names, seen), name);
      }
    }
  }

  lemma {:induction false} NothingToRedact(list: seq<Pair>, names: set<string>, seen: set<string>, name: string)
    requires name !in names && !HasName(Redacted(list, names, seen), name)
    ensures Redacted(list, names + {name}, seen) == Redacted(list, names, seen)
  {
    if list != [] {
      var p := list[0];
      InFront(Kept(p, names, seen), Redacted(list[1..], names, Met(p, names, seen)), name);
      NothingToRedact(list[1..], names, Met(p, names, seen), name);
    }
  }

  class SearchParams {
    var list: seq<Pair>

    constructor (s: string)
      ensures list == ParseString(s)
    {
      list := ParseString(s);
    }

    predicate Has(name: string)
      reads this
    {
      HasName(list, name)
    }

    method Set(name: string, value: string)
      modifies this
      ensures list == SetPair(old(list), name, value)
    {
      list := SetPair(list, name, value);
    }
  }

  // Main result 1: the loop over the seven names redacts exactly as the reference says.
  method RedactSearchParams(params: SearchParams)
    modifies params
    ensures params.list == Redacted(old(params.list), PiiNames(), {})
  {
    ghost var list := params.list;
    RedactNothing(list);
    assert NamesUpTo(0) == {};
    var i := 0;
    while i < |PII_QUERY_PARAMS|
      invariant 0 <= i <= |PII_QUERY_PARAMS|
      invariant params.list == Redacted(list, NamesUpTo(i), {})
    {
      var key := PII_QUERY_PARAMS[i];
      OneMoreName(i);
      if params.Has(key) {
        SetRedactsOneMore(list, NamesUpTo(i), {}, key);
        params.Set(key, REDACTED_VALUE);
      } else {
        NothingToRedact(list, NamesUpTo(i), {}, key);
      }
      i := i + 1;
    }
    assert PII_QUERY_PARAMS[..i] == PII_QUERY_PARAMS;
  }

  function NamesUpTo(i: nat): set<string>
    requires i <= |PII_QUERY_PARAMS|
  {
    set name | name in PII_QUERY_PARAMS[..i]
  }

  lemma OneMoreName(i: nat)
    requires i < |PII_QUERY_PARAMS|
    ensures NamesUpTo(i + 1) == NamesUpTo(i) + {PII_QUERY_PARAMS[i]}
    ensures PII_QUERY_PARAMS[i] !in NamesUpTo(i)
  {
    assert PII_QUERY_PARAMS[..i + 1] == PII_QUERY_PARAMS[..i] + [PII_QUERY_PARAMS[i]];
    PiiNamesDiffer(i);
  }

  lemma PiiNamesDiffer(i: nat)
    requires i < |PII_QUERY_PARAMS|
    ensures forall j :: 0 <= j < i ==> PII_QUERY_PARAMS[j] != PII_QUERY_PARAMS[i]
  {
  }

  lemma {:induction false} RedactNothing(list: seq<Pair>)
    ensures Redacted(list, {}, {}) == list
  {
    if list != [] {
      RedactNothing(list[1..]);
    }
  }

  // ---------- what the reference leaves ----------

  function Others(list: seq<Pair>, names: set<string>): seq<Pair> {
    if list == [] then []
    else (if list[0].name in names then [] else [list[0]]) + Others(list[1..], names)
  }

  // Each name of `names` occurs at most once, redacted, and none of `seen` at all.
  predicate Clean(list: seq<Pair>, names: set<string>, seen: set<string>) {
    && (forall i :: 0 <= i < |list| && list[i].name in names ==> list[i].value == REDACTED_VALUE && list[i].name !in seen)
    && (forall i, j :: 0 <= i < j < |list| && list[i].name in names ==> list[i].name != list[j].name)
  }

  lemma {:induction false} RedactedIsClean(list: seq<Pair>, names: set<string>, seen: set<string>)
    ensures Clean(Redacted(list, names, seen), names, seen)
  {
    if list != [] {
      var p := list[0];
      RedactedIsClean(list[1..], names, Met(p, names, seen));
    }
  }

  lemma {:induction false} OthersStay(list: seq<Pair>, names: set<string>, seen: set<string>)
    ensures Others(Redacted(list, names, seen), names) == Others(list, names)
  {
    if list != [] {
      var p := list[0];
      InFront(Kept(p, names, seen), Redacted(list[1..], names, Met(p, names, seen)), p.name);
      OthersStay(list[1..], names, Met(p, names, seen));
    }
  }

  lemma {:induction false} NamesStay(list: seq<Pair>, names: set<string>, seen: set<string>, name: string)
    requires name !in seen
    ensures HasName(Redacted(list, names, seen), name) <==> HasName(list, name)
  {
    if list != [] {
      var p := list[0];
      InFront(Kept(p, names, seen), Redacted(list[1..], names, Met(p, names, seen)), name);
      InFront([p], list[1..], name);
      assert [p] + list[1..] == list;
      if p.name != name {
        NamesStay(list[1..], names, Met(p, names, seen), name);
      }
    }
  }

  // Main result 2: afterwards each of the seven PII parameters occurs at most once, redacted,
  // exactly if it occurred before, and the ordered list of the other pairs is unchanged.
  lemma RedactionIsExact(list: seq<Pair>, name: string, names: set<string>)
    requires names == {"email", "password", "token", "access_token", "refresh_token", "api_key", "apiKey"}
    ensures var r := Redacted(list, PiiNames(), {});
            && (forall i :: 0 <= i < |r| && r[i].name in names ==> r[i].value == "[REDACTED]")
            && (forall i, j :: 0 <= i < j < |r| && r[i].name in names ==> r[i].name != r[j].name)
            && Others(r, names) == Others(list, names)
            && (HasName(r, name) <==> HasName(list, name))
  {
    assert PiiNames() == names;
    RedactedIsClean(list, PiiNames(), {});
    OthersStay(list, PiiNames(), {});
    NamesStay(list, PiiNames(), {}, name);
  }

  // A clean list is its own redaction.
  lemma {:induction false} CleanStays(list: seq<Pair>, names: set<string>, seen: set<string>)
    requires Clean(list, names, seen)
    ensures Redacted(list, names, seen) == list
  {
    if list != [] {
      var p := list[0];
      CleanStays(list[1..], names, if p.name in names then seen + {p.name} else seen);
    }
  }

  // ---------- URLs ----------

  function FindMark(url: string): (i: nat)
    ensures i <= |url| && (i < |url| ==> url[i] == '?') && forall j :: 0 <= j < i ==> url[j] != '?'
  {
    if url == "" || url[0] == '?' then 0 else 1 + FindMark(url[1..])
  }

  function RedactedUrl(url: string): string {
    var i := FindMark(url);
    if i == |url| then url
    else WithQuery(url[..i], RedactedQuery(url[i + 1..]))
  }

  function RedactedQuery(query: string): string {
    Serialize(Redacted(ParseString(query), PiiNames(), {}))
  }

  function WithQuery(base: string, qs: string): string {
    if qs == "" then base else base + "?" + qs
  }

  method RedactQueryString(url: string) returns (r: string)
    ensures r == RedactedUrl(url)
  {
    var i := FindMark(url);
    if i == |url| { return url; }
    var base, query := url[..i], url[i + 1..];
    RedactedUrlJoins(url);
    var params := new SearchParams(query);
    RedactSearchParams(params);
    assert params.list == Redacted(Query(url), PiiNames(), {});
    var qs := Serialize(params.list);
    if |qs| == 0 { return base; }
    return base + "?" + qs;
  }

  lemma {:induction false} FindMarkAfter(base: string, rest: string)
    requires forall i :: 0 <= i < |base| ==> base[i] != '?'
    ensures FindMark(base + "?" + rest) == |base| && FindMark(base) == |base|
  {
    if base != "" {
      assert (base + "?" + rest)[1..] == base[1..] + "?" + rest;
      FindMarkAfter(base[1..], rest);
    }
  }

  // The query that a redacted URL parses to.
  function Query(url: string): seq<Pair> {
    var i := FindMark(url);
    if i == |url| then [] else ParseString(url[i + 1..])
  }

  function JoinUrl(base: string, pairs: seq<Pair>): string {
    if pairs == [] then base else base + "?" + Serialize(pairs)
  }

  // A URL printed from a base and pairs is taken apart into them again.
  lemma JoinedUrl(base: string, pairs: seq<Pair>)
    requires forall i :: 0 <= i < |base| ==> base[i] != '?'
    ensures var url := JoinUrl(base, pairs);
            Query(url) == pairs && url[..FindMark(url)] == base && RedactedUrl(url) == JoinUrl(base, Redacted(pairs, PiiNames(), {}))
  {
    var qs := Serialize(pairs);
    FindMarkAfter(base, qs);
    if pairs != [] {
      var url := base + "?" + qs;
      assert url[..|base|] == base && url[|base| + 1..] == qs;
      ParseSerialize(pairs);
    } else {
      assert base[..|base|] == base;
    }
  }

  lemma RedactedUrlJoins(url: string)
    ensures RedactedUrl(url) == JoinUrl(url[..FindMark(url)], Redacted(Query(url), PiiNames(), {}))
  {
    if FindMark(url) == |url| {
      assert url[..|url|] == url;
    }
  }

  // Main result 3: a redacted URL keeps its part before the query, its query parses to exactly
  // the redacted pairs, and redacting it again changes nothing.
  lemma UrlRedactionIsIdempotent(url: string)
    ensures RedactedUrl(RedactedUrl(url)) == RedactedUrl(url)
    ensures Query(RedactedUrl(url)) == Redacted(Query(url), PiiNames(), {})
    ensures RedactedUrl(url)[..FindMark(RedactedUrl(url))] == url[..FindMark(url)]
  {
    var base, pairs := url[..FindMark(url)], Redacted(Query(url), PiiNames(), {});
    RedactedUrlJoins(url);
    JoinedUrl(base, pairs);
    RedactedIsClean(Query(url), PiiNames(), {});
    CleanStays(pairs, PiiNames(), {});
  }

  // ---------- attributes ----------

  datatype Value = Text(text: string) | Other(value: int)

  const SENSITIVE_HEADER_NAMES: seq<string> := ["authorization", "x-api-key", "cookie", "set-cookie"]
  const SENSITIVE_HEADER_PREFIXES: seq<string> := ["http.request.header.", "http.response.header."]
  const SENSITIVE_NETWORK_KEYS: seq<string> :=
    ["http.client.ip", "net.peer.ip", "net.sock.peer.addr", "client.address", "client.socket.address"]
  const URL_ATTRIBUTE_KEYS: seq<string> := ["http.target", "http.url", "url.full", "url.path"]

  predicate IsPiiKey(key: string) {
    || key in SENSITIVE_NETWORK_KEYS
    || exists i, j :: 0 <= i < |SENSITIVE_HEADER_PREFIXES| && 0 <= j < |SENSITIVE_HEADER_NAMES|
                      && key == SENSITIVE_HEADER_PREFIXES[i] + SENSITIVE_HEADER_NAMES[j]
  }

  function RedactedValue(key: string, value: Value): Value {
    if IsPiiKey(key) then Text(REDACTED_VALUE)
    else if value.Text? && key in URL_ATTRIBUTE_KEYS then Text(RedactedUrl(value.text))
    else value
  }

  // sensitive: the keys the redaction is for
  method SanitiseAttributes(attrs: map<string, Value>, ghost sensitive: seq<string>) returns (out: map<string, Value>)
    requires sensitive ==
      ["http.client.ip", "net.peer.ip", "net.sock.peer.addr", "client.address", "client.socket.address",
       "http.request.header.authorization", "http.request.header.x-api-key",
       "http.request.header.cookie", "http.request.header.set-cookie",
       "http.response.header.authorization", "http.response.header.x-api-key",
       "http.response.header.cookie", "http.response.header.set-cookie"]
    ensures out == map key | key in attrs :: RedactedValue(key, attrs[key])
    ensures forall key :: key in attrs && key in sensitive ==> out[key] == Text("[REDACTED]")
    ensures forall key :: key in attrs && key !in sensitive && key !in ["http.target", "http.url", "url.full", "url.path"] ==>
              out[key] == attrs[key]
  {
    out := map[];
    var keys := attrs.Keys;
    while keys != {}
      invariant keys <= attrs.Keys && out.Keys == attrs.Keys - keys
      invariant forall key :: key in out ==> out[key] == RedactedValue(key, attrs[key])
      decreases keys
    {
      var key :| key in keys;
      var value := attrs[key];
      if IsPiiKey(key) {
        value := Text(REDACTED_VALUE);
      } else if value.Text? && key in URL_ATTRIBUTE_KEYS {
        var url := RedactQueryString(value.text);
        value := Text(url);
      }
      out := out[key := value];
      keys := keys - {key};
    }
    forall key | key in attrs ensures IsPiiKey(key) <==> key in sensitive {
      SensitiveKeys(key, sensitive);
    }
  }

  lemma HeaderKeys()
    ensures "http.request.header." + "authorization" == "http.request.header.authorization"
    ensures "http.request.header." + "x-api-key" == "http.request.header.x-api-key"
    ensures "http.request.header." + "cookie" == "http.request.header.cookie"
    ensures "http.request.header." + "set-cookie" == "http.request.header.set-cookie"
    ensures "http.response.header." + "authorization" == "http.response.header.authorization"
    ensures "http.response.header." + "x-api-key" == "http.response.header.x-api-key"
    ensures "http.response.header." + "cookie" == "http.response.header.cookie"
    ensures "http.response.header." + "set-cookie" == "http.response.header.set-cookie"
  {
  }

  // Which keys are dropped whole: the raw client addresses and, in either direction, the
  // headers that carry credentials.
  lemma SensitiveKeys(key: string, sensitive: seq<string>)
    requires sensitive ==
      ["http.client.ip", "net.peer.ip", "net.sock.peer.addr", "client.address", "client.socket.address",
       "http.request.header.authorization", "http.request.header.x-api-key",
       "http.request.header.cookie", "http.request.header.set-cookie",
       "http.response.header.authorization", "http.response.header.x-api-key",
       "http.response.header.cookie", "http.response.header.set-cookie"]
    ensures IsPiiKey(key) <==> key in sensitive
  {
    HeaderKeys();
    var prefixes, names := SENSITIVE_HEADER_PREFIXES, SENSITIVE_HEADER_NAMES;
    assert forall i, j :: 0 <= i < 2 && 0 <= j < 4 && key == prefixes[i] + names[j] ==> IsPiiKey(key);
    if key == "http.request.header.authorization" { assert key == prefixes[0] + names[0]; }
    if key == "http.request.header.x-api-key" { assert key == prefixes[0] + names[1]; }
    if key == "http.request.header.cookie" { assert key == prefixes[0] + names[2]; }
    if key == "http.request.header.set-cookie" { assert key == prefixes[0] + names[3]; }
    if key == "http.response.header.authorization" { assert key == prefixes[1] + names[0]; }
    if key == "http.response.header.x-api-key" { assert key == prefixes[1] + names[1]; }
    if key == "http.response.header.cookie" { assert key == prefixes[1] + names[2]; }
    if key == "http.response.header.set-cookie" { assert key == prefixes[1] + names[3]; }
  }

  // Main result 4: what sanitising leaves of one attribute. Of a sensitive key nothing; of a
  // text under one of the four URL keys its base, its query with each of the seven PII
  // parameters at most once and redacted, and the other parameters in their order; any other
  // value as it was.
  lemma SanitisedAttribute(key: string, value: Value, r: Value, sensitive: seq<string>, names: set<string>)
    requires sensitive ==
      ["http.client.ip", "net.peer.ip", "net.sock.peer.addr", "client.address", "client.socket.address",
       "http.request.header.authorization", "http.request.header.x-api-key",
       "http.request.header.cookie", "http.request.header.set-cookie",
       "http.response.header.authorization", "http.response.header.x-api-key",
       "http.response.header.cookie", "http.response.header.set-cookie"]
    requires names == {"email", "password", "token", "access_token", "refresh_token", "api_key", "apiKey"}
    requires r == RedactedValue(key, value)
    ensures key in sensitive ==> r == Text("[REDACTED]")
    ensures key !in sensitive && !(value.Text? && key in ["http.target", "http.url", "url.full", "url.path"]) ==> r == value
    ensures key !in sensitive && value.Text? && key in ["http.target", "http.url", "url.full", "url.path"] ==>
              && r.Text? && r.text[..FindMark(r.text)] == value.text[..FindMark(value.text)]
              && (forall i :: 0 <= i < |Query(r.text)| && Query(r.text)[i].name in names ==> Query(r.text)[i].value == "[REDACTED]")
              && (forall i, j :: 0 <= i < j < |Query(r.text)| && Query(r.text)[i].name in names ==> Query(r.text)[i].name != Query(r.text)[j].name)
              && Others(Query(r.text), names) == Others(Query(value.text), names)
              && forall name :: HasName(Query(r.text), name) <==> HasName(Query(value.text), name)
  {
    SensitiveKeys(key, sensitive);
    if key !in sensitive && value.Text? && key in URL_ATTRIBUTE_KEYS {
      UrlRedactionIsIdempotent(value.text);
      forall name ensures HasName(Query(RedactedUrl(value.text)), name) <==> HasName(Query(value.text), name) {
        RedactionIsExact(Query(value.text), name, names);
      }
      RedactionIsExact(Query(value.text), "", names);
    }
  }

  // Main result 5: a second pass over sanitised attributes changes nothing.
  lemma SanitisingIsIdempotent(attrs: map<string, Value>)
    ensures var once := map key | key in attrs :: RedactedValue(key, attrs[key]);
            once == map key | key in once :: RedactedValue(key, once[key])
  {
    var once := map key | key in attrs :: RedactedValue(key, attrs[key]);
    forall key | key in attrs ensures RedactedValue(key, once[key]) == once[key] {
      if attrs[key].Text? {
        UrlRedactionIsIdempotent(attrs[key].text);
      }
    }
  }
}
