/** `ecsctrl.dump.secrets`: listing the SSM parameters page by page,
    fetching each one's value, keeping those whose name passes the filter,
    and rendering them as `key: value` lines. */
module DumpSecrets {
  import opened Wrappers
  import opened Paging
  import Text
  import Dump

  /** A `describe_parameters` page: the parameter names (the only field of
      a parameter that is read) and the continuation token. */
  type ParameterPage = Page<string>

  /** One request, with the keyword arguments the code passes. */
  datatype SsmCall =
    | DescribeParameters(nextToken: Option<string>)
    | GetParameter(name: string, withDecryption: bool)

  /** The SSM client. `pages` is the listing the service hands out and
      `valueAnswer` the value `get_parameter` returns, which may depend on
      the request's position in `log`. */
  class SsmClient {
    const pages: seq<ParameterPage>
    const valueAnswer: (nat, string) -> string
    var log: seq<SsmCall>

    constructor (pages: seq<ParameterPage>, valueAnswer: (nat, string) -> string)
      ensures this.pages == pages && this.valueAnswer == valueAnswer && log == []
    {
      this.pages := pages;
      this.valueAnswer := valueAnswer;
      log := [];
    }

    /** `describe_parameters`, with `NextToken` when one is given. */
    method DescribeParameters(token: Option<string>) returns (page: ParameterPage)
      requires |pages| > 0
      requires token.Some? ==> TokenIndex(pages, token.value).Some?
      modifies this
      ensures log == old(log) + [SsmCall.DescribeParameters(token)]
      ensures page == PageFor(pages, token)
    {
      page := PageFor(pages, token);
      log := log + [SsmCall.DescribeParameters(token)];
    }

    /** `get_parameter`: the `Parameter.Value` of the response. */
    method GetParameter(name: string, withDecryption: bool) returns (value: string)
      modifies this
      ensures log == old(log) + [SsmCall.GetParameter(name, withDecryption)]
      ensures value == valueAnswer(|old(log)|, name)
    {
      value := valueAnswer(|log|, name);
      log := log + [SsmCall.GetParameter(name, withDecryption)];
    }

    /** `(name, value)` for the parameters of the first `n` pages, as
        `dump_secrets` fetches them when its first request is number `o`. */
    function Fetched(o: nat, n: nat): seq<(string, string)>
      requires n <= |pages|
    {
      if n == 0 then []
      else Fetched(o, n - 1) + Answers(o + |DumpCalls(pages, n - 1)| + 1, pages[n - 1].items)
    }

    /** Page `k` adds the values fetched right after its own request. */
    lemma FetchedStep(o: nat, k: nat)
      requires k < |pages|
      ensures Fetched(o, k + 1) == Fetched(o, k) + Answers(o + |DumpCalls(pages, k)| + 1, pages[k].items)
    {
    }

    /** The values of `names`, fetched by requests `o`, `o + 1`, ... */
    function Answers(o: nat, names: seq<string>): seq<(string, string)> {
      seq(|names|, j requires 0 <= j < |names| => (names[j], valueAnswer(o + j, names[j])))
    }
  }

  /** The names `list_secrets` yields from the first `n` pages. */
  function Listed(pages: seq<ParameterPage>, n: nat): seq<string>
    requires n <= |pages|
  {
    if n == 0 then [] else Listed(pages, n - 1) + pages[n - 1].items
  }

  /** The requests `list_secrets` makes for the first `n` pages: the first
      without a token, each later one with the token of the page before. */
  function ListCalls(pages: seq<ParameterPage>, n: nat): (r: seq<SsmCall>)
    requires n <= |pages|
    ensures |r| == n
    ensures forall k :: 0 <= k < n ==> r[k] == SsmCall.DescribeParameters(TokenBefore(pages, k))
  {
    if n == 0 then [] else ListCalls(pages, n - 1) + [SsmCall.DescribeParameters(TokenBefore(pages, n - 1))]
  }

  /** One decrypting `get_parameter` per name, in order. */
  function GetCalls(names: seq<string>): seq<SsmCall> {
    seq(|names|, j requires 0 <= j < |names| => SsmCall.GetParameter(names[j], true))
  }

  /** The requests of `dump_secrets` over the first `n` pages: the listing
      is a generator, so each page's `get_parameter` requests come right
      after the request for that page and before the next one. */
  function DumpCalls(pages: seq<ParameterPage>, n: nat): seq<SsmCall>
    requires n <= |pages|
  {
    if n == 0 then []
    else DumpCalls(pages, n - 1) + [SsmCall.DescribeParameters(TokenBefore(pages, n - 1))] + GetCalls(pages[n - 1].items)
  }

  /** The kept pairs: all of them without a filter, else those whose name
      the filter accepts (`re.match` is taken as a given predicate). */
  function Keep(filter: Option<string -> bool>, xs: seq<(string, string)>): seq<(string, string)> {
    if xs == [] then []
    else
      var x := xs[|xs| - 1];
      Keep(filter, xs[..|xs| - 1]) + (if filter.None? || filter.value(x.0) then [x] else [])
  }

  /** `list_secrets`, with every yielded name collected. */
  method ListSecrets(ssm: SsmClient) returns (names: seq<string>)
    requires WellChained(ssm.pages)
    modifies ssm
    ensures ssm.log == old(ssm.log) + ListCalls(ssm.pages, |ssm.pages|)
    ensures names == Listed(ssm.pages, |ssm.pages|)
  {
    ghost var pages := ssm.pages;
    var shouldFetch := true;
    var nextToken: Option<string> := None;
    names := [];
    ghost var k := 0;
    while shouldFetch
      invariant 0 <= k <= |pages|
      invariant shouldFetch <==> k < |pages|
      invariant shouldFetch ==> (if HasMore(nextToken) then nextToken else None) == TokenBefore(pages, k)
      invariant ssm.log == old(ssm.log) + ListCalls(pages, k)
      invariant names == Listed(pages, k)
      decreases |pages| - k
    {
      // `if next_token: kwargs["NextToken"] = next_token`
      var sent := if HasMore(nextToken) then nextToken else None;
      TokensWalkThePages(pages, k);
      var page := ssm.DescribeParameters(sent);
      nextToken := page.nextToken;
      shouldFetch := HasMore(nextToken);
      names := names + page.items;
      k := k + 1;
    }
  }

  /** `dump_secrets(ssm, filter)`: walks the listing, asks for every
      parameter's value (whether or not the filter keeps it), and yields
      the `(name, value)` pairs the filter keeps, in listing order. */
  method DumpSecrets(ssm: SsmClient, filter: Option<string -> bool>) returns (secrets: seq<(string, string)>)
    requires WellChained(ssm.pages)
    modifies ssm
    ensures ssm.log == old(ssm.log) + DumpCalls(ssm.pages, |ssm.pages|)
    ensures secrets == Keep(filter, ssm.Fetched(|old(ssm.log)|, |ssm.pages|))
  {
    ghost var pages := ssm.pages;
    ghost var o := |ssm.log|;
    var shouldFetch := true;
    var nextToken: Option<string> := None;
    secrets := [];
    ghost var k := 0;
    while shouldFetch
      invariant 0 <= k <= |pages|
      invariant shouldFetch <==> k < |pages|
      invariant shouldFetch ==> (if HasMore(nextToken) then nextToken else None) == TokenBefore(pages, k)
      invariant ssm.log == old(ssm.log) + DumpCalls(pages, k)
      invariant secrets == Keep(filter, ssm.Fetched(o, k))
      decreases |pages| - k
    {
      var sent := if HasMore(nextToken) then nextToken else None;
      TokensWalkThePages(pages, k);
      secrets, nextToken := DumpPage(ssm, filter, sent, secrets, k, o, old(ssm.log));
      shouldFetch := HasMore(nextToken);
      k := k + 1;
    }
  }

  /** One round of `dump_secrets`: request page `k`, then fetch and filter
      its parameters. */
  method DumpPage(ssm: SsmClient, filter: Option<string -> bool>, sent: Option<string>,
                  kept: seq<(string, string)>, ghost k: nat, ghost o: nat, ghost prefix: seq<SsmCall>)
    returns (secrets: seq<(string, string)>, nextToken: Option<string>)
    requires k < |ssm.pages| && sent == TokenBefore(ssm.pages, k)
    requires sent.Some? ==> TokenIndex(ssm.pages, sent.value).Some?
    requires PageFor(ssm.pages, sent) == ssm.pages[k]
    requires |prefix| == o && ssm.log == prefix + DumpCalls(ssm.pages, k)
    requires kept == Keep(filter, ssm.Fetched(o, k))
    modifies ssm
    ensures ssm.log == prefix + DumpCalls(ssm.pages, k + 1)
    ensures secrets == Keep(filter, ssm.Fetched(o, k + 1))
    ensures nextToken == ssm.pages[k].nextToken
  {
    var page := ssm.DescribeParameters(sent);
    nextToken := page.nextToken;
    ghost var base := |ssm.log|;
    assert base == o + |DumpCalls(ssm.pages, k)| + 1;
    ghost var calls := DumpCalls(ssm.pages, k) + [SsmCall.DescribeParameters(sent)];
    Assoc(prefix, DumpCalls(ssm.pages, k), [SsmCall.DescribeParameters(sent)]);
    ghost var before := ssm.Fetched(o, k);
    secrets := FetchPage(ssm, filter, page.items, kept, before);
    Assoc(prefix, calls, GetCalls(page.items));
    ssm.FetchedStep(o, k);
    assert page.items == ssm.pages[k].items;
    assert ssm.Fetched(o, k + 1) == before + ssm.Answers(base, page.items);
  }

  /** The body of `dump_secrets` for the parameters of one page. */
  method FetchPage(ssm: SsmClient, filter: Option<string -> bool>, names: seq<string>,
                   kept: seq<(string, string)>, ghost before: seq<(string, string)>)
    returns (secrets: seq<(string, string)>)
    requires kept == Keep(filter, before)
    modifies ssm
    ensures ssm.log == old(ssm.log) + GetCalls(names)
    ensures secrets == Keep(filter, before + ssm.Answers(|old(ssm.log)|, names))
  {
    ghost var o := |ssm.log|;
    secrets := kept;
    assert before + ssm.Answers(o, names[..0]) == before;
    for j := 0 to |names|
      invariant ssm.log == old(ssm.log) + GetCalls(names[..j])
      invariant secrets == Keep(filter, before + ssm.Answers(o, names[..j]))
    {
      var value := ssm.GetParameter(names[j], true);
      assert GetCalls(names[..j + 1]) == GetCalls(names[..j]) + [SsmCall.GetParameter(names[j], true)];
      var xs := before + ssm.Answers(o, names[..j]);
      assert before + ssm.Answers(o, names[..j + 1]) == xs + [(names[j], value)];
      assert (xs + [(names[j], value)])[..|xs|] == xs;
      if filter.None? || filter.value(names[j]) {
        secrets := secrets + [(names[j], value)];
      }
    }
    assert names[..|names|] == names;
  }

  /** The `describe_parameters` requests among `calls`, in order. */
  function Describes(calls: seq<SsmCall>): seq<SsmCall> {
    if calls == [] then []
    else Describes(calls[..|calls| - 1]) + (if calls[|calls| - 1].DescribeParameters? then [calls[|calls| - 1]] else [])
  }

  /** The `get_parameter` requests among `calls`, in order. */
  function Gets(calls: seq<SsmCall>): seq<SsmCall> {
    if calls == [] then []
    else Gets(calls[..|calls| - 1]) + (if calls[|calls| - 1].GetParameter? then [calls[|calls| - 1]] else [])
  }

  lemma {:induction false} DescribesAppend(a: seq<SsmCall>, b: seq<SsmCall>)
    ensures Describes(a + b) == Describes(a) + Describes(b)
    decreases |b|
  {
    if b == [] {
      assert a + b == a;
    } else {
      var init := b[..|b| - 1];
      DescribesAppend(a, init);
      assert (a + b)[..|a + b| - 1] == a + init;
    }
  }

  lemma {:induction false} GetsAppend(a: seq<SsmCall>, b: seq<SsmCall>)
    ensures Gets(a + b) == Gets(a) + Gets(b)
    decreases |b|
  {
    if b == [] {
      assert a + b == a;
    } else {
      var init := b[..|b| - 1];
      GetsAppend(a, init);
      assert (a + b)[..|a + b| - 1] == a + init;
    }
  }

  lemma {:induction false} GetCallsFilters(names: seq<string>)
    ensures Describes(GetCalls(names)) == [] && Gets(GetCalls(names)) == GetCalls(names)
  {
    if names != [] {
      var init := names[..|names| - 1];
      GetCallsFilters(init);
      assert GetCalls(names)[..|names| - 1] == GetCalls(init);
    }
  }

  lemma GetCallsAppend(a: seq<string>, b: seq<string>)
    ensures GetCalls(a + b) == GetCalls(a) + GetCalls(b)
  {
  }

  /** While `dump_secrets` runs, its `describe_parameters` requests are
      exactly those `list_secrets` makes alone: one per page, the first
      without a token and each later one with the previous page's token. */
  lemma {:induction false} DumpDescribesAsListing(pages: seq<ParameterPage>, n: nat)
    requires n <= |pages|
    ensures Describes(DumpCalls(pages, n)) == ListCalls(pages, n)
  {
    if n > 0 {
      DumpDescribesAsListing(pages, n - 1);
      var d := [SsmCall.DescribeParameters(TokenBefore(pages, n - 1))];
      var g := GetCalls(pages[n - 1].items);
      DescribesAppend(DumpCalls(pages, n - 1), d);
      DescribesAppend(DumpCalls(pages, n - 1) + d, g);
      assert Describes(d) == d by {
        assert d[..0] == [];
      }
      GetCallsFilters(pages[n - 1].items);
    }
  }

  /** Its `get_parameter` requests ask, with decryption, for every listed
      parameter in listing order, so also for those the filter drops. */
  lemma {:induction false} DumpGetsEveryListed(pages: seq<ParameterPage>, n: nat)
    requires n <= |pages|
    ensures Gets(DumpCalls(pages, n)) == GetCalls(Listed(pages, n))
  {
    if n > 0 {
      DumpGetsEveryListed(pages, n - 1);
      var d := [SsmCall.DescribeParameters(TokenBefore(pages, n - 1))];
      var g := GetCalls(pages[n - 1].items);
      GetsAppend(DumpCalls(pages, n - 1), d);
      GetsAppend(DumpCalls(pages, n - 1) + d, g);
      assert Gets(d) == [] by {
        assert d[..0] == [];
      }
      GetCallsFilters(pages[n - 1].items);
      GetCallsAppend(Listed(pages, n - 1), pages[n - 1].items);
    }
  }

  /** The fetched pairs name the listed parameters, one each, in order. */
  lemma {:induction false} FetchedNames(ssm: SsmClient, o: nat, n: nat)
    requires n <= |ssm.pages|
    ensures |ssm.Fetched(o, n)| == |Listed(ssm.pages, n)|
    ensures forall i :: 0 <= i < |Listed(ssm.pages, n)| ==> ssm.Fetched(o, n)[i].0 == Listed(ssm.pages, n)[i]
  {
    if n > 0 {
      FetchedNames(ssm, o, n - 1);
    }
  }

  /** A pair is kept exactly when it was fetched and the filter, if any,
      accepts its name. */
  lemma {:induction false} KeepIff(filter: Option<string -> bool>, xs: seq<(string, string)>, x: (string, string))
    ensures x in Keep(filter, xs) <==> x in xs && (filter.None? || filter.value(x.0))
  {
    if xs != [] {
      var init := xs[..|xs| - 1];
      KeepIff(filter, init, x);
      assert xs == init + [xs[|xs| - 1]];
    }
  }

  /** Keeping works page by page: what is kept of later pages follows what
      is kept of earlier ones. */
  lemma {:induction false} KeepAppend(filter: Option<string -> bool>, xs: seq<(string, string)>, ys: seq<(string, string)>)
    ensures Keep(filter, xs + ys) == Keep(filter, xs) + Keep(filter, ys)
    decreases |ys|
  {
    if ys == [] {
      assert xs + ys == xs;
    } else {
      var init := ys[..|ys| - 1];
      KeepAppend(filter, xs, init);
      assert (xs + ys)[..|xs + ys| - 1] == xs + init;
    }
  }

  /** Without a filter every fetched pair is kept. */
  lemma {:induction false} KeepAll(xs: seq<(string, string)>)
    ensures Keep(None, xs) == xs
  {
    if xs != [] {
      KeepAll(xs[..|xs| - 1]);
    }
  }

  /** The line `render_dumped_secrets` writes for one secret. */
  function SecretLine(lut: seq<(string, string)>, secret: (string, string)): string {
    Dump.Substitute(secret.0, lut) + ": " + secret.1 + "\n"
  }

  /** `render_dumped_secrets`: the lines written to the target file, one per
      secret, in order. */
  method RenderDumpedSecrets(secrets: seq<(string, string)>, lut: seq<(string, string)>) returns (lines: seq<string>)
    ensures |lines| == |secrets|
    ensures forall i :: 0 <= i < |secrets| ==> lines[i] == SecretLine(lut, secrets[i])
  {
    lines := [];
    for i := 0 to |secrets|
      invariant |lines| == i
      invariant forall j :: 0 <= j < i ==> lines[j] == SecretLine(lut, secrets[j])
    {
      var (name, value) := secrets[i];
      var key := Dump.SubstituteWithExpressions(name, lut);
      lines := lines + [key + ": " + value + "\n"];
    }
  }

  /** A secret whose name contains no table value keeps its name. */
  lemma PlainNameLine(lut: seq<(string, string)>, secret: (string, string))
    requires forall j :: 0 <= j < |lut| ==> !Text.Contains(secret.0, lut[j].0)
    ensures SecretLine(lut, secret) == secret.0 + ": " + secret.1 + "\n"
  {
  }
}
