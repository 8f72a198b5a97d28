/**
 The container port as it travels: read from the job's environment, printed in decimal into the
 runtime environment, and read again by the container. Integers are Go's fixed-width ones.
 */
module Ports {
  import opened Wrappers
  import Names

  // ---------------------------------------------------------------------
  // Decimal text
  // ---------------------------------------------------------------------

  const MIN_INT64: int := -0x8000_0000_0000_0000
  const MAX_INT64: int := 0x7FFF_FFFF_FFFF_FFFF

  predicate FitsWidth(i: int, bits: nat)
    requires bits in {32, 64}
  {
    if bits == 32 then -0x8000_0000 <= i < 0x8000_0000 else MIN_INT64 <= i <= MAX_INT64
  }

  function DigitChar(d: nat): (c: char)
    requires d < 10
    ensures Names.IsDigit(c)
  {
    ('0' as int + d) as char
  }

  function Digits(n: nat): string {
    if n < 10 then [DigitChar(n)] else Digits(n / 10) + [DigitChar(n % 10)]
  }

  // fmt.Sprintf("%d", i)
  function Decimal(i: int): string {
    if i < 0 then "-" + Digits(-i) else Digits(i)
  }

  predicate AllDigits(s: string) {
    forall i :: 0 <= i < |s| ==> Names.IsDigit(s[i])
  }

  function DigitsValue(s: string): nat
    requires AllDigits(s)
  {
    if s == [] then 0
    else 10 * DigitsValue(s[..|s| - 1]) + (s[|s| - 1] as int - '0' as int)
  }

  function Signed(negative: bool, body: string, bits: nat): Option<int>
    requires bits in {32, 64}
  {
    if body == [] || !AllDigits(body) then None
    else
      var i: int := if negative then -(DigitsValue(body) as int) else DigitsValue(body);
      if FitsWidth(i, bits) then Some(i) else None
  }

  // strconv.ParseInt(s, 10, bits)
  function ParseInt(s: string, bits: nat): Option<int>
    requires bits in {32, 64}
  {
    if s != [] && s[0] == '-' then Signed(true, s[1..], bits)
    else if s != [] && s[0] == '+' then Signed(false, s[1..], bits)
    else Signed(false, s, bits)
  }

  lemma {:induction false} DigitsParse(n: nat)
    ensures Digits(n) != [] && AllDigits(Digits(n)) && DigitsValue(Digits(n)) == n
  {
    if n >= 10 {
      DigitsParse(n / 10);
      var s := Digits(n / 10);
      assert (s + [DigitChar(n % 10)])[..|s|] == s;
    }
  }

  lemma ParseUnsigned(s: string, bits: nat)
    requires bits in {32, 64} && s != [] && AllDigits(s)
    ensures ParseInt(s, bits) == Signed(false, s, bits)
    ensures ParseInt("-" + s, bits) == Signed(true, s, bits)
  {
    assert Names.IsDigit(s[0]);
    assert ("-" + s)[1..] == s;
  }

  // Printing and parsing is the identity exactly on the integers of the target width.
  lemma DecimalRoundTrip(i: int, bits: nat)
    requires bits in {32, 64}
    ensures ParseInt(Decimal(i), bits) == if FitsWidth(i, bits) then Some(i) else None
  {
    var m: nat := if i < 0 then -i else i;
    DigitsParse(m);
    ParseUnsigned(Digits(m), bits);
  }

  // Base ten, most significant digit first, with an optional sign and leading zeros on reading.
  lemma DecimalExamples()
    ensures Decimal(0) == "0" && Decimal(8080) == "8080" && Decimal(-65) == "-65"
    ensures ParseInt("8080", 32) == Some(8080) && ParseInt("+080", 32) == Some(80) && ParseInt("-5", 32) == Some(-5)
    ensures ParseInt("", 32) == None && ParseInt("-", 32) == None && ParseInt("80a", 32) == None
    ensures ParseInt("80 ", 32) == None && ParseInt("--1", 32) == None
  {
    DecimalRoundTrip(8080, 32);
    assert Digits(8) == "8" && Digits(80) == "80" && Digits(808) == "808" && Digits(8080) == "8080";
    assert DigitsValue("") == 0;
    assert "0"[..0] == "" && DigitsValue("0") == 0;
    assert "08"[..1] == "0" && DigitsValue("08") == 8;
    assert "080"[..2] == "08" && DigitsValue("080") == 80;
    assert "+080"[1..] == "080";
    assert "5"[..0] == "" && DigitsValue("5") == 5 && "-5"[1..] == "5";
    assert "80a"[2] == 'a' && "80 "[2] == ' ' && "--1"[1..][0] == '-';
    assert "-"[1..] == "";
  }

  // Go's -i on a 64-bit integer.
  function Negate(i: int): int {
    if i == MIN_INT64 then MIN_INT64 else -i
  }

  // The digit loop, which prepends the last digit of what is left.
  method PrependDigits(n: int) returns (b: string)
    ensures b == if n <= 0 then "" else Digits(n)
  {
    b := "";
    var i := n;
    while i > 0
      invariant n <= 0 ==> i == n && b == ""
      invariant n > 0 ==> 0 <= i && Digits(n) == if i == 0 then b else Digits(i) + b
    {
      b := [DigitChar(i % 10)] + b;
      i := i / 10;
    }
  }

  lemma LoneMinus()
    ensures ParseInt("-", 64).None?
  {
  }

  // The logger's own formatter agrees with Decimal on every 64-bit integer but the smallest, for
  // which it prints a lone minus sign.
  method IntToString(n: int) returns (s: string)
    requires FitsWidth(n, 64)
    ensures s == if n == MIN_INT64 then "-" else Decimal(n)
    ensures ParseInt(s, 64) == Some(n) <==> n != MIN_INT64
  {
    DecimalRoundTrip(n, 64);
    LoneMinus();
    if n == 0 { return "0"; }
    var i := n;
    var negative := i < 0;
    if negative { i := Negate(i); }
    var b := PrependDigits(i);
    if negative { b := "-" + b; }
    s := b;
  }

  method PrintSmallest() returns (s: string)
    ensures s == "-" && ParseInt(s, 64).None?
  {
    LoneMinus();
    s := IntToString(MIN_INT64);
  }

  // ---------------------------------------------------------------------
  // Environments
  // ---------------------------------------------------------------------

  type Env = map<string, string>

  const DEFAULT_PORT: int := 3000

  predicate IsPort(p: int) {
    1 <= p <= 65535
  }

  function ResolvePort(env: Env): (port: int)
    ensures IsPort(port)
    ensures "PORT" !in env ==> port == 3000
    ensures "PORT" in env ==>
              var read := ParseInt(env["PORT"], 32);
              (read.Some? && 1 <= read.value <= 65535 ==> port == read.value)
              && (read.None? || read.value < 1 || read.value > 65535 ==> port == 3000)
  {
    if "PORT" in env then
      var p := ParseInt(env["PORT"], 32);
      if p.Some? && IsPort(p.value) then p.value else DEFAULT_PORT
    else DEFAULT_PORT
  }

  // A job that asks for a port number in decimal gets that port.
  lemma RequestedPort(env: Env, p: int)
    requires 1 <= p <= 65535 && "PORT" in env && env["PORT"] == Decimal(p)
    ensures ResolvePort(env) == p
  {
    DecimalRoundTrip(p, 32);
  }

  // The maps read as one: the last one that has a key decides.
  function Merged(maps: seq<Env>): Env {
    if maps == [] then map[] else Merged(maps[..|maps| - 1]) + maps[|maps| - 1]
  }

  lemma TakeOneMoreKey(env: Env, left: set<string>, k: string)
    requires k in left && left <= env.Keys
    ensures (env - left)[k := env[k]] == env - (left - {k})
  {
  }

  // The loop over one map's keys, in any order.
  method Overlay(base: Env, m: Env) returns (merged: Env)
    ensures merged == base + m
  {
    merged := base;
    var keys := m.Keys;
    while keys != {}
      invariant keys <= m.Keys
      invariant merged.Keys == base.Keys + (m.Keys - keys)
      invariant forall k | k in merged :: merged[k] == if k in m && k !in keys then m[k] else base[k]
      decreases |keys|
    {
      var k :| k in keys;
      merged := merged[k := m[k]];
      keys := keys - {k};
    }
  }

  method MergeEnvVars(maps: seq<Env>) returns (merged: Env)
    ensures merged == Merged(maps)
  {
    merged := map[];
    var i := 0;
    while i < |maps|
      invariant 0 <= i <= |maps|
      invariant merged == Merged(maps[..i])
    {
      assert maps[..i + 1][..i] == maps[..i];
      merged := Overlay(merged, maps[i]);
      i := i + 1;
    }
    assert maps[..i] == maps;
  }

  // Which map a key's value comes from.
  lemma {:induction false} MergedMeaning(maps: seq<Env>, k: string)
    ensures k in Merged(maps) <==> exists i :: 0 <= i < |maps| && k in maps[i]
    ensures forall i | 0 <= i < |maps| && k in maps[i] && (forall j | i < j < |maps| :: k !in maps[j]) ::
              k in Merged(maps) && Merged(maps)[k] == maps[i][k]
  {
    if maps != [] {
      var m := |maps| - 1;
      MergedMeaning(maps[..m], k);
      if k !in maps[m] {
        assert forall i | 0 <= i < m :: maps[..m][i] == maps[i];
      }
    }
  }

  const PORT_KEYS: set<string> := {"PORT", "NUXT_PORT", "FLASK_RUN_PORT", "UVICORN_PORT", "STREAMLIT_SERVER_PORT"}

  function FrameworkRuntimePortEnv(framework: string, port: int): Env {
    var p, f := Decimal(port), Names.ToLower(framework);
    if f == "nextjs" then map["PORT" := p, "HOSTNAME" := "0.0.0.0"]
    else if f in {"vite", "vue", "sveltekit", "astro"} then map["PORT" := p, "HOST" := "0.0.0.0"]
    else if f in {"nuxt", "nuxtjs"} then
      map["PORT" := p, "HOST" := "0.0.0.0", "NUXT_PORT" := p, "NUXT_HOST" := "0.0.0.0"]
    else if f == "django" then map["PORT" := p, "ALLOWED_HOSTS" := "*"]
    else if f == "flask" then map["PORT" := p, "FLASK_RUN_PORT" := p, "FLASK_RUN_HOST" := "0.0.0.0"]
    else if f == "fastapi" then map["PORT" := p, "UVICORN_PORT" := p, "UVICORN_HOST" := "0.0.0.0"]
    else if f == "streamlit" then
      map["PORT" := p, "STREAMLIT_SERVER_PORT" := p, "STREAMLIT_SERVER_ADDRESS" := "0.0.0.0"]
    else map["PORT" := p]
  }

  // The variables each framework gets; all others get PORT alone.
  lemma FrameworkVariables(framework: string, port: int)
    ensures var f, own := Names.ToLower(framework), FrameworkRuntimePortEnv(framework, port);
            && own.Keys == (if f == "nextjs" then {"PORT", "HOSTNAME"}
                            else if f == "vite" || f == "vue" || f == "sveltekit" || f == "astro" then {"PORT", "HOST"}
                            else if f == "nuxt" || f == "nuxtjs" then {"PORT", "HOST", "NUXT_PORT", "NUXT_HOST"}
                            else if f == "django" then {"PORT", "ALLOWED_HOSTS"}
                            else if f == "flask" then {"PORT", "FLASK_RUN_PORT", "FLASK_RUN_HOST"}
                            else if f == "fastapi" then {"PORT", "UVICORN_PORT", "UVICORN_HOST"}
                            else if f == "streamlit"
                            then {"PORT", "STREAMLIT_SERVER_PORT", "STREAMLIT_SERVER_ADDRESS"}
                            else {"PORT"})
            && forall k | k in own :: own[k] == if k in PORT_KEYS then Decimal(port)
                                                else if k == "ALLOWED_HOSTS" then "*" else "0.0.0.0"
  {
  }

  // runtimeEnvVars of processJob.
  function RuntimeEnv(jobEnv: Env, framework: string): Env {
    var port := ResolvePort(jobEnv);
    Merged([jobEnv, FrameworkRuntimePortEnv(framework, port)])["PORT" := Decimal(port)]
  }

  method BuildRuntimeEnv(jobEnv: Env, framework: string) returns (port: int, env: Env)
    ensures port == ResolvePort(jobEnv) && env == RuntimeEnv(jobEnv, framework)
  {
    port := ResolvePort(jobEnv);
    env := MergeEnvVars([jobEnv, FrameworkRuntimePortEnv(framework, port)]);
    env := env["PORT" := Decimal(port)];
  }

  lemma MergedPair(a: Env, b: Env)
    ensures Merged([a, b]) == a + b
  {
    assert [a, b][..1] == [a];
    assert [a][..0] == [];
    assert Merged([a]) == map[] + a;
  }

  lemma OwnPortKeys(framework: string, port: int)
    ensures var own := FrameworkRuntimePortEnv(framework, port);
            "PORT" in own && forall k | k in PORT_KEYS && k in own :: own[k] == Decimal(port)
  {
  }

  // Whatever the job asked for, the container reads back the port the cluster objects use; every
  // framework-specific port key carries the same text, and the job's other keys are untouched.
  lemma RuntimePortIsCoherent(jobEnv: Env, framework: string)
    ensures var port, env := ResolvePort(jobEnv), RuntimeEnv(jobEnv, framework);
            var own := FrameworkRuntimePortEnv(framework, port);
            && ResolvePort(env) == port && env["PORT"] == Decimal(port)
            && (forall k | k in PORT_KEYS && k in own :: k in env && env[k] == Decimal(port))
            && (forall k | k in jobEnv && k != "PORT" && k !in own :: k in env && env[k] == jobEnv[k])
            && env.Keys == jobEnv.Keys + own.Keys
  {
    var port := ResolvePort(jobEnv);
    var own := FrameworkRuntimePortEnv(framework, port);
    MergedPair(jobEnv, own);
    DecimalRoundTrip(port, 32);
    OwnPortKeys(framework, port);
  }

  // ---------------------------------------------------------------------
  // The container's variable list
  // ---------------------------------------------------------------------

  datatype EnvVar = EnvVar(name: string, value: string)

  predicate NamesAreUnique(list: seq<EnvVar>) {
    forall i, j :: 0 <= i < j < |list| ==> list[i].name != list[j].name
  }

  // What the container sees: the given variables, with a default PORT and NODE_ENV.
  function WithDefaults(env: Env, port: int): Env {
    map["PORT" := Decimal(port), "NODE_ENV" := "production"] + env
  }

  predicate Occurs(list: seq<EnvVar>, name: string, value: string) {
    EnvVar(name, value) in list
  }

  // The job's own variables win; PORT and NODE_ENV are there in any case.
  lemma DefaultsMeaning(env: Env, port: int)
    ensures var w := WithDefaults(env, port);
            && w.Keys == env.Keys + {"PORT", "NODE_ENV"} && (forall k | k in env :: w[k] == env[k])
            && ("PORT" !in env ==> w["PORT"] == Decimal(port))
            && ("NODE_ENV" !in env ==> w["NODE_ENV"] == "production")
  {
  }

  ghost predicate Lists(list: seq<EnvVar>, env: Env) {
    && NamesAreUnique(list)
    && (forall v | v in list :: v.name in env && env[v.name] == v.value)
    && (forall k | k in env :: Occurs(list, k, env[k]))
  }

  lemma ListsOneMore(list: seq<EnvVar>, env: Env, k: string, v: string)
    requires Lists(list, env) && k !in env
    ensures Lists(list + [EnvVar(k, v)], env[k := v])
  {
    var more := list + [EnvVar(k, v)];
    forall i, j | 0 <= i < j < |more| ensures more[i].name != more[j].name {
      assert list[i] in list;
    }
    assert more[|list|] == EnvVar(k, v);
    assert Occurs(more, k, v);
    var wider := env[k := v];
    forall key | key in wider ensures Occurs(more, key, wider[key]) {
      assert key != k ==> Occurs(list, key, env[key]);
    }
  }

  method ListAll(env: Env) returns (list: seq<EnvVar>)
    ensures Lists(list, env)
  {
    list := [];
    var keys := env.Keys;
    while keys != {}
      invariant keys <= env.Keys
      invariant Lists(list, env - keys)
      decreases |keys|
    {
      var k :| k in keys;
      ghost var seen := env - keys;
      ListsOneMore(list, seen, k, env[k]);
      TakeOneMoreKey(env, keys, k);
      list := list + [EnvVar(k, env[k])];
      keys := keys - {k};
    }
    assert env - {} == env;
  }

  // The list names each variable once, whatever order the map is walked in.
  method ContainerEnv(env: Env, port: int) returns (list: seq<EnvVar>)
    ensures Lists(list, WithDefaults(env, port))
  {
    list := ListAll(env);
    ghost var seen := env;
    if "PORT" !in env {
      ListsOneMore(list, seen, "PORT", Decimal(port));
      list := list + [EnvVar("PORT", Decimal(port))];
      seen := seen["PORT" := Decimal(port)];
    }
    if "NODE_ENV" !in env {
      ListsOneMore(list, seen, "NODE_ENV", "production");
      list := list + [EnvVar("NODE_ENV", "production")];
      seen := seen["NODE_ENV" := "production"];
    }
    DefaultsFillGaps(env, port);
  }

  lemma DefaultsFillGaps(env: Env, port: int)
    ensures var withPort := if "PORT" in env then env else env["PORT" := Decimal(port)];
            WithDefaults(env, port) ==
            if "NODE_ENV" in env then withPort else withPort["NODE_ENV" := "production"]
  {
    var withPort := if "PORT" in env then env else env["PORT" := Decimal(port)];
    var both := if "NODE_ENV" in env then withPort else withPort["NODE_ENV" := "production"];
    var w := WithDefaults(env, port);
    assert w.Keys == both.Keys;
    assert forall k | k in w :: w[k] == both[k];
  }

  // In the list built from the runtime environment exactly one entry is named PORT, and it reads
  // back as the container port.
  lemma ContainerSeesItsPort(jobEnv: Env, framework: string, list: seq<EnvVar>)
    requires Lists(list, WithDefaults(RuntimeEnv(jobEnv, framework), ResolvePort(jobEnv)))
    ensures exists i :: 0 <= i < |list| && list[i].name == "PORT"
                        && ParseInt(list[i].value, 32) == Some(ResolvePort(jobEnv))
                        && forall j | 0 <= j < |list| && list[j].name == "PORT" :: j == i
    ensures forall p: int | 1 <= p <= 65535 && "PORT" in jobEnv && jobEnv["PORT"] == Decimal(p) ::
              EnvVar("PORT", Decimal(p)) in list && ParseInt(Decimal(p), 32) == Some(p)
  {
    var port := ResolvePort(jobEnv);
    RuntimePortIsCoherent(jobEnv, framework);
    DecimalRoundTrip(port, 32);
    var entry := EnvVar("PORT", Decimal(port));
    assert WithDefaults(RuntimeEnv(jobEnv, framework), port)["PORT"] == Decimal(port);
    assert Occurs(list, "PORT", Decimal(port));
    forall p: int | 1 <= p <= 65535 && "PORT" in jobEnv && jobEnv["PORT"] == Decimal(p)
      ensures p == port && ParseInt(Decimal(p), 32) == Some(p)
    {
      RequestedPort(jobEnv, p);
      DecimalRoundTrip(p, 32);
    }
    var i :| 0 <= i < |list| && list[i] == entry;
  }
}
