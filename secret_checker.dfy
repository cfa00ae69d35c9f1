/** `SecretChecker` from ecsctrl/secret_checker.py: which SSM parameters a
    task definition's containers read their secrets from, and which of
    those the parameter store does not know. */
module SecretChecker {
  import opened Wrappers
  import Text

  /** The parts of a task definition spec the checker reads: each
      container's optional `secrets` list and each secret's `valueFrom`. A
      `None` stands for a key the dictionary does not have. */
  datatype SecretDefinition = SecretDefinition(valueFrom: Option<string>)
  datatype ContainerDefinition = ContainerDefinition(secrets: Option<seq<SecretDefinition>>)
  datatype TaskDefinitionSpec = TaskDefinitionSpec(containerDefinitions: Option<seq<ContainerDefinition>>)

  /** The `KeyError` of `secret_definition["valueFrom"]`, which nothing
      catches. */
  datatype SecretError = ValueFromMissing

  /** The `valueFrom` of every secret of one container, in order. */
  function ValueFroms(secrets: seq<SecretDefinition>): Result<seq<string>, SecretError> {
    if secrets == [] then Ok([])
    else match ValueFroms(secrets[..|secrets| - 1])
      case Err(e) => Err(e)
      case Ok(names) =>
        match secrets[|secrets| - 1].valueFrom
        case None => Err(ValueFromMissing)
        case Some(name) => Ok(names + [name])
  }

  /** A container without `secrets` contributes nothing (the `KeyError`
      that `continue`s). */
  function ContainerNames(c: ContainerDefinition): Result<seq<string>, SecretError> {
    match c.secrets
    case None => Ok([])
    case Some(secrets) => ValueFroms(secrets)
  }

  /** The names of all containers, container after container. */
  function ContainersNames(cs: seq<ContainerDefinition>): Result<seq<string>, SecretError> {
    if cs == [] then Ok([])
    else match ContainersNames(cs[..|cs| - 1])
      case Err(e) => Err(e)
      case Ok(names) =>
        match ContainerNames(cs[|cs| - 1])
        case Err(e) => Err(e)
        case Ok(more) => Ok(names + more)
  }

  /** What `get_secret_names` returns or raises; a spec without
      `containerDefinitions` has no secrets. */
  function SecretNames(spec: TaskDefinitionSpec): Result<seq<string>, SecretError> {
    match spec.containerDefinitions
    case None => Ok([])
    case Some(cs) => ContainersNames(cs)
  }

  /** Container `i` declares a `j`-th secret. */
  predicate SecretAt(cs: seq<ContainerDefinition>, i: int, j: int) {
    0 <= i < |cs| && cs[i].secrets.Some? && 0 <= j < |cs[i].secrets.value|
  }

  /** How many secrets the containers declare. */
  function SecretCount(cs: seq<ContainerDefinition>): nat {
    if cs == [] then 0
    else
      var last := cs[|cs| - 1];
      SecretCount(cs[..|cs| - 1]) + (if last.secrets.Some? then |last.secrets.value| else 0)
  }

  /** One container's names are its secrets' `valueFrom`s, one for one, and
      the lookup fails exactly when some secret has no `valueFrom`. */
  lemma {:induction false} ValueFromsSpec(secrets: seq<SecretDefinition>)
    ensures ValueFroms(secrets).Err? <==> exists j :: 0 <= j < |secrets| && secrets[j].valueFrom.None?
    ensures ValueFroms(secrets).Ok? ==>
      && |ValueFroms(secrets).value| == |secrets|
      && forall j :: 0 <= j < |secrets| ==> Some(ValueFroms(secrets).value[j]) == secrets[j].valueFrom
  {
    if secrets != [] {
      var init := secrets[..|secrets| - 1];
      ValueFromsSpec(init);
      assert forall j :: 0 <= j < |init| ==> init[j] == secrets[j];
    }
  }

  /** `get_secret_names` raises exactly when some declared secret has no
      `valueFrom`. */
  lemma {:induction false} ContainersNamesFails(cs: seq<ContainerDefinition>)
    ensures ContainersNames(cs).Err? <==>
      exists i, j :: SecretAt(cs, i, j) && cs[i].secrets.value[j].valueFrom.None?
  {
    if cs != [] {
      var init := cs[..|cs| - 1];
      var last := cs[|cs| - 1];
      ContainersNamesFails(init);
      if last.secrets.Some? {
        ValueFromsSpec(last.secrets.value);
      }
      if ContainersNames(cs).Err? {
        if ContainersNames(init).Err? {
          var i, j :| SecretAt(init, i, j) && init[i].secrets.value[j].valueFrom.None?;
          assert init[i] == cs[i];
        } else {
          var j :| 0 <= j < |last.secrets.value| && last.secrets.value[j].valueFrom.None?;
          assert SecretAt(cs, |cs| - 1, j);
        }
      } else {
        forall i, j | SecretAt(cs, i, j)
          ensures cs[i].secrets.value[j].valueFrom.Some?
        {
          if i < |init| {
            assert init[i] == cs[i] && SecretAt(init, i, j);
          }
        }
      }
    }
  }

  /** The names come in container order and then secret order: secret `j`
      of container `i` sits after every secret of the containers before
      `i`. */
  lemma {:induction false} ContainersNamesOrder(cs: seq<ContainerDefinition>)
    requires ContainersNames(cs).Ok?
    ensures |ContainersNames(cs).value| == SecretCount(cs)
    ensures forall i, j {:trigger SecretAt(cs, i, j)} :: SecretAt(cs, i, j) ==>
      SecretCount(cs[..i]) + j < SecretCount(cs) &&
      Some(ContainersNames(cs).value[SecretCount(cs[..i]) + j]) == cs[i].secrets.value[j].valueFrom
  {
    if cs != [] {
      var init := cs[..|cs| - 1];
      var last := cs[|cs| - 1];
      ContainersNamesOrder(init);
      var names := ContainersNames(init).value;
      var more := ContainerNames(last).value;
      assert ContainersNames(cs).value == names + more;
      if last.secrets.Some? {
        ValueFromsSpec(last.secrets.value);
      }
      forall i, j | SecretAt(cs, i, j)
        ensures SecretCount(cs[..i]) + j < SecretCount(cs)
        ensures Some(ContainersNames(cs).value[SecretCount(cs[..i]) + j]) == cs[i].secrets.value[j].valueFrom
      {
        if i < |init| {
          assert init[i] == cs[i] && SecretAt(init, i, j);
          assert init[..i] == cs[..i];
        } else {
          assert cs[..i] == init;
        }
      }
    }
  }

  /** A name is returned exactly when some container declares a secret
      with that `valueFrom`. */
  lemma {:induction false} ContainersNamesMembers(cs: seq<ContainerDefinition>, name: string)
    requires ContainersNames(cs).Ok?
    ensures name in ContainersNames(cs).value <==>
      exists i, j :: SecretAt(cs, i, j) && cs[i].secrets.value[j].valueFrom == Some(name)
  {
    if cs != [] {
      var init := cs[..|cs| - 1];
      var last := cs[|cs| - 1];
      ContainersNamesMembers(init, name);
      var names := ContainersNames(init).value;
      var more := ContainerNames(last).value;
      assert ContainersNames(cs).value == names + more;
      if last.secrets.Some? {
        ValueFromsSpec(last.secrets.value);
      }
      if name in names {
        var i, j :| SecretAt(init, i, j) && init[i].secrets.value[j].valueFrom == Some(name);
        assert init[i] == cs[i] && SecretAt(cs, i, j);
      } else if name in more {
        var j :| 0 <= j < |more| && more[j] == name;
        assert SecretAt(cs, |cs| - 1, j);
      } else {
        forall i, j | SecretAt(cs, i, j)
          ensures cs[i].secrets.value[j].valueFrom != Some(name)
        {
          if i < |init| {
            assert init[i] == cs[i] && SecretAt(init, i, j);
          } else {
            assert more[j] != name;
          }
        }
      }
    }
  }

  /** The start of the report `check` prints. */
  const ReportPrefix := "\U{1F534}\U{1F511} Missing secrets required by task definition: "

  /** What `check` echoes for the missing names: nothing when there are
      none, else the names joined with `", "`. */
  function Report(missing: seq<string>): Option<string> {
    if missing == [] then None else Some(ReportPrefix + Text.Join(", ", missing))
  }

  /** Where element `k` of `xs` sits in `sep.join(xs)`. */
  lemma {:induction false} JoinPlaces(sep: string, xs: seq<string>, k: nat) returns (at: nat)
    requires k < |xs|
    ensures at + |xs[k]| <= |Text.Join(sep, xs)| && Text.Join(sep, xs)[at..at + |xs[k]|] == xs[k]
  {
    var joined := Text.Join(sep, xs);
    if |xs| == 1 {
      at := 0;
    } else if k == 0 {
      at := 0;
      assert joined == xs[0] + (sep + Text.Join(sep, xs[1..]));
    } else {
      var inner := JoinPlaces(sep, xs[1..], k - 1);
      var head := xs[0] + sep;
      assert joined == head + Text.Join(sep, xs[1..]);
      at := |head| + inner;
      assert joined[at..at + |xs[k]|] == Text.Join(sep, xs[1..])[inner..inner + |xs[k]|];
    }
  }

  /** The report is printed exactly when something is missing, and it
      names every missing secret. */
  lemma ReportNamesEach(missing: seq<string>)
    ensures Report(missing).Some? <==> missing != []
    ensures Report(missing).Some? ==>
      Text.IsPrefix(ReportPrefix, Report(missing).value) &&
      forall k :: 0 <= k < |missing| ==> Text.Contains(Report(missing).value, missing[k])
  {
    if missing != [] {
      var message := Report(missing).value;
      var joined := Text.Join(", ", missing);
      assert message[..|ReportPrefix|] == ReportPrefix;
      forall k | 0 <= k < |missing|
        ensures Text.Contains(message, missing[k])
      {
        var at := JoinPlaces(", ", missing, k);
        assert message[|ReportPrefix| + at..|ReportPrefix| + at + |missing[k]|] == joined[at..at + |missing[k]|];
        Text.ContainsAt(message, missing[k], |ReportPrefix| + at);
      }
    }
  }

  /** The checker around its parameter store. `describe` gives the `Name`
      of every parameter the `describe_parameters` call with a `Name
      Equals` filter on its argument answers with. */
  class SecretChecker {
    const describe: string -> seq<string>

    constructor (describe: string -> seq<string>)
      ensures this.describe == describe
    {
      this.describe := describe;
    }

    /** `describe_secret`: the first parameter of the answer, `None` where
        `["Parameters"][0]` raises `IndexError`. */
    function DescribeSecret(name: string): (r: Option<string>)
      ensures r.None? <==> describe(name) == []
      ensures r.Some? ==> r.value == describe(name)[0]
    {
      if describe(name) == [] then None else Some(describe(name)[0])
    }

    /** `secret_exists`: false on `IndexError`, else whether the parameter
        found has the name asked for. */
    predicate SecretExists(name: string) {
      match DescribeSecret(name)
      case None => false
      case Some(found) => found == name
    }

    /** A secret exists exactly when the store answers with at least one
        parameter and the first one has the queried name; so an answer
        that lists the name only later does not count. */
    lemma SecretExistsIff(name: string)
      ensures SecretExists(name) <==> describe(name) != [] && describe(name)[0] == name
      ensures SecretExists(name) ==> name in describe(name)
    {
    }

    /** The names `SecretExists` rejects, in order. */
    function Missing(names: seq<string>): seq<string> {
      if names == [] then []
      else
        var last := names[|names| - 1];
        Missing(names[..|names| - 1]) + (if SecretExists(last) then [] else [last])
    }

    /** The filter keeps order: filtering a concatenation filters each
        part. */
    lemma {:induction false} MissingAppend(a: seq<string>, b: seq<string>)
      ensures Missing(a + b) == Missing(a) + Missing(b)
      decreases |b|
    {
      if b == [] {
        assert a + b == a;
      } else {
        var init := b[..|b| - 1];
        MissingAppend(a, init);
        assert (a + b)[..|a + b| - 1] == a + init;
      }
    }

    /** A name is kept exactly as often as it occurs when it does not exist,
        and never when it does. */
    lemma {:induction false} MissingCounts(names: seq<string>, name: string)
      ensures multiset(Missing(names))[name] == if SecretExists(name) then 0 else multiset(names)[name]
    {
      if names != [] {
        var init := names[..|names| - 1];
        MissingCounts(init, name);
        assert names == init + [names[|names| - 1]];
      }
    }

    /** A name is reported missing exactly when it was asked for and does
        not exist. */
    lemma MissingIff(names: seq<string>, name: string)
      ensures name in Missing(names) <==> name in names && !SecretExists(name)
    {
      MissingCounts(names, name);
      assert name in Missing(names) <==> multiset(Missing(names))[name] > 0;
      assert name in names <==> multiset(names)[name] > 0;
    }

    /** `get_secret_names`: the nested loops over containers and their
        secrets. */
    method GetSecretNames(spec: TaskDefinitionSpec) returns (r: Result<seq<string>, SecretError>)
      ensures r == SecretNames(spec)
    {
      if spec.containerDefinitions.None? {
        return Ok([]);
      }
      var cs := spec.containerDefinitions.value;
      var names: seq<string> := [];
      for i := 0 to |cs|
        invariant ContainersNames(cs[..i]) == Ok(names)
      {
        assert cs[..i + 1][..i] == cs[..i] && cs[..i + 1][i] == cs[i];
        if cs[i].secrets.None? {
          assert ContainerNames(cs[i]) == Ok([]) && names + [] == names;
          continue;
        }
        var secrets := cs[i].secrets.value;
        ghost var before := names;
        for j := 0 to |secrets|
          invariant ValueFroms(secrets[..j]).Ok? && names == before + ValueFroms(secrets[..j]).value
        {
          assert secrets[..j + 1][..j] == secrets[..j];
          if secrets[j].valueFrom.None? {
            assert SecretAt(cs, i, j) && cs[i].secrets.value[j].valueFrom.None?;
            ContainersNamesFails(cs);
            assert ContainersNames(cs).Err?;
            assert SecretNames(spec) == ContainersNames(cs);
            assert SecretNames(spec).error == ValueFromMissing;
            return Err(ValueFromMissing);
          }
          names := names + [secrets[j].valueFrom.value];
        }
        assert secrets[..|secrets|] == secrets;
        assert ContainerNames(cs[i]) == ValueFroms(secrets);
      }
      assert cs[..|cs|] == cs;
      r := Ok(names);
    }

    /** `find_missing_secrets`: the declared names the store does not
        know, in declaration order; a missing `valueFrom` raises. */
    method FindMissingSecrets(spec: TaskDefinitionSpec) returns (r: Result<seq<string>, SecretError>)
      ensures SecretNames(spec).Err? ==> r == Err(SecretNames(spec).error)
      ensures SecretNames(spec).Ok? ==> r == Ok(Missing(SecretNames(spec).value))
    {
      var all := GetSecretNames(spec);
      if all.Err? {
        return Err(all.error);
      }
      var names := all.value;
      var missing: seq<string> := [];
      for k := 0 to |names|
        invariant missing == Missing(names[..k])
      {
        assert names[..k + 1][..k] == names[..k];
        if !SecretExists(names[k]) {
          missing := missing + [names[k]];
        }
      }
      assert names[..|names|] == names;
      r := Ok(missing);
    }

    /** `check`: the report on the missing secrets, if any. */
    method Check(spec: TaskDefinitionSpec) returns (r: Result<Option<string>, SecretError>)
      ensures SecretNames(spec).Err? ==> r == Err(SecretNames(spec).error)
      ensures SecretNames(spec).Ok? ==> r == Ok(Report(Missing(SecretNames(spec).value)))
    {
      var missing := FindMissingSecrets(spec);
      if missing.Err? {
        return Err(missing.error);
      }
      r := Ok(Report(missing.value));
    }

    /** The report of `check` names every secret some container declares
        whose parameter does not exist. */
    lemma ReportNamesMissingDeclared(spec: TaskDefinitionSpec, name: string)
      requires spec.containerDefinitions.Some? && SecretNames(spec).Ok?
      ensures var cs := spec.containerDefinitions.value;
        var report := Report(Missing(SecretNames(spec).value));
        (exists i, j :: SecretAt(cs, i, j) && cs[i].secrets.value[j].valueFrom == Some(name)) && !SecretExists(name)
        ==> report.Some? && Text.Contains(report.value, name)
    {
      var cs := spec.containerDefinitions.value;
      var names := SecretNames(spec).value;
      ContainersNamesMembers(cs, name);
      MissingIff(names, name);
      if name in names && !SecretExists(name) {
        var missing := Missing(names);
        var k :| 0 <= k < |missing| && missing[k] == name;
        ReportNamesEach(missing);
      }
    }

    /** `check` reports exactly when some container declares a secret whose
        parameter does not exist. */
    lemma ReportsIffSomeMissing(spec: TaskDefinitionSpec)
      requires spec.containerDefinitions.Some? && SecretNames(spec).Ok?
      ensures var cs := spec.containerDefinitions.value;
        Report(Missing(SecretNames(spec).value)).Some? <==>
        exists i, j :: SecretAt(cs, i, j) && cs[i].secrets.value[j].valueFrom.Some?
          && !SecretExists(cs[i].secrets.value[j].valueFrom.value)
    {
      var cs := spec.containerDefinitions.value;
      var names := SecretNames(spec).value;
      if Report(Missing(names)).Some? {
        var name := Missing(names)[0];
        MissingIff(names, name);
        ContainersNamesMembers(cs, name);
        var i, j :| SecretAt(cs, i, j) && cs[i].secrets.value[j].valueFrom == Some(name);
        assert cs[i].secrets.value[j].valueFrom.value == name;
      }
      if exists i, j :: SecretAt(cs, i, j) && cs[i].secrets.value[j].valueFrom.Some?
          && !SecretExists(cs[i].secrets.value[j].valueFrom.value) {
        var i, j :| SecretAt(cs, i, j) && cs[i].secrets.value[j].valueFrom.Some?
          && !SecretExists(cs[i].secrets.value[j].valueFrom.value);
        ReportNamesMissingDeclared(spec, cs[i].secrets.value[j].valueFrom.value);
      }
    }
  }
}
