/**
  The environment block of a Windows process: written by the host, read back by the payload. Variables
  are taken as UTF-16 code units, each ended by a zero, the block ended by one more.
 */
module EnvironmentBlock {
  import opened Prelude

  newtype wide = x: int | 0 <= x < 0x1_0000

  // ----- Writing -----

  function Chain(vars: seq<seq<wide>>): seq<wide> {
    if vars == [] then [] else vars[0] + [0] + Chain(vars[1..])
  }

  function Block(vars: seq<seq<wide>>): seq<wide> {
    (if vars == [] then [0] else Chain(vars)) + [0]
  }

  lemma {:induction false} ChainSnoc(vars: seq<seq<wide>>, v: seq<wide>)
    ensures Chain(vars + [v]) == Chain(vars) + (v + [0])
    decreases |vars|
  {
    if vars == [] {
      assert (vars + [v])[1..] == [];
      assert Chain(vars + [v]) == v + [0] + [];
    } else {
      assert (vars + [v])[1..] == vars[1..] + [v];
      ChainSnoc(vars[1..], v);
    }
  }

  method EnvpToEnvironmentBlock(envp: seq<seq<wide>>) returns (block: seq<wide>)
    ensures block == Block(envp)
  {
    block := [];
    if |envp| > 0 {
      for i := 0 to |envp|
        invariant block == Chain(envp[..i])
      {
        ChainSnoc(envp[..i], envp[i]);
        assert envp[..i + 1] == envp[..i] + [envp[i]];
        block := block + (envp[i] + [0]);
      }
      assert envp[..|envp|] == envp;
    } else {
      block := block + [0];
    }
    block := block + [0];
  }

  // ----- Reading -----

  /** The length of the string at the start of `mem`; `None` if the memory ends before it does. */
  function StringLength(mem: seq<wide>): Option<nat> {
    if mem == [] then None
    else if mem[0] == 0 then Some(0)
    else
      match StringLength(mem[1..])
      case None => None
      case Some(n) => Some(n + 1)
  }

  lemma StringLengthFits(mem: seq<wide>)
    ensures StringLength(mem).Some? ==> StringLength(mem).value < |mem|
  {
  }

  /** The strings up to the first empty one; `None` if reading them leaves the memory. */
  function Parse(mem: seq<wide>): Option<seq<seq<wide>>>
    decreases |mem|
  {
    StringLengthFits(mem);
    match StringLength(mem)
    case None => None
    case Some(n) =>
      if n == 0 then Some([])
      else
        match Parse(mem[n + 1..])
        case None => None
        case Some(rest) => Some([mem[..n]] + rest)
  }

  method MeasureString(mem: seq<wide>, at: nat) returns (n: Option<nat>)
    requires at <= |mem|
    ensures n == StringLength(mem[at..])
  {
    var len := 0;
    while at + len < |mem| && mem[at + len] != 0
      invariant 0 <= len && at + len <= |mem|
      invariant StringLength(mem[at..])
             == match StringLength(mem[at + len..]) case None => None case Some(k) => Some(k + len)
    {
      assert mem[at + len..][1..] == mem[at + len + 1..];
      len := len + 1;
    }
    return if at + len == |mem| then None else Some(len);
  }

  function After(done: seq<seq<wide>>, r: Option<seq<seq<wide>>>): Option<seq<seq<wide>>> {
    match r
    case None => None
    case Some(rest) => Some(done + rest)
  }

  lemma AfterBoth(done: seq<seq<wide>>, v: seq<wide>, r: Option<seq<seq<wide>>>)
    ensures After([], r) == r
    ensures After(done, After([v], r)) == After(done + [v], r)
  {
    if r.Some? {
      assert [] + r.value == r.value;
      assert done + ([v] + r.value) == done + [v] + r.value;
    }
  }

  method ParseUnicodeEnvironment(mem: seq<wide>) returns (r: Option<seq<seq<wide>>>)
    ensures r == Parse(mem)
  {
    var result: seq<seq<wide>> := [];
    var at := 0;
    assert mem[0..] == mem;
    AfterBoth([], [], Parse(mem));
    while true
      invariant at <= |mem|
      invariant Parse(mem) == After(result, Parse(mem[at..]))
      decreases |mem| - at
    {
      var n := MeasureString(mem, at);
      if n.None? {
        return None;
      }
      StringLengthFits(mem[at..]);
      if n.value == 0 {
        assert result + [] == result;
        return Some(result);
      }
      var element := mem[at..at + n.value];
      assert element == mem[at..][..n.value] && mem[at..][n.value + 1..] == mem[at + n.value + 1..];
      AfterBoth(result, element, Parse(mem[at + n.value + 1..]));
      result := result + [element];
      at := at + n.value + 1;
    }
  }

  // ----- The round trip -----

  ghost predicate NoZero(s: seq<wide>) {
    forall k :: 0 <= k < |s| ==> s[k] != 0
  }

  /** The variables before the first empty one. */
  function UntilEmpty(vars: seq<seq<wide>>): seq<seq<wide>> {
    if vars == [] || vars[0] == [] then [] else [vars[0]] + UntilEmpty(vars[1..])
  }

  lemma {:induction false} StringLengthReads(s: seq<wide>, rest: seq<wide>)
    requires NoZero(s)
    ensures StringLength(s + [0] + rest) == Some(|s|)
    decreases |s|
  {
    var mem := s + [0] + rest;
    if s != [] {
      StringLengthReads(s[1..], rest);
      assert mem[1..] == s[1..] + [0] + rest;
    }
  }

  lemma {:induction false} ParseReads(vars: seq<seq<wide>>, beyond: seq<wide>)
    requires forall k :: 0 <= k < |vars| ==> NoZero(vars[k])
    ensures Parse(Chain(vars) + [0] + beyond) == Some(UntilEmpty(vars))
    decreases |vars|
  {
    var mem := Chain(vars) + [0] + beyond;
    if vars == [] {
      StringLengthReads([], beyond);
      assert mem == [] + [0] + beyond;
    } else {
      var rest := Chain(vars[1..]) + [0] + beyond;
      assert mem == vars[0] + [0] + rest;
      StringLengthReads(vars[0], rest);
      assert mem[..|vars[0]|] == vars[0] && mem[|vars[0]| + 1..] == rest;
      ParseReads(vars[1..], beyond);
    }
  }

  lemma {:induction false} UntilEmptyIsAll(vars: seq<seq<wide>>)
    ensures UntilEmpty(vars) == vars <==> [] !in vars
    decreases |vars|
  {
    if vars != [] && vars[0] != [] {
      UntilEmptyIsAll(vars[1..]);
      assert vars == [vars[0]] + vars[1..];
    }
  }

  /**
    Reading a written block never goes past its end, whatever memory follows, and gives the variables
    back if and only if none of them is empty; an empty one hides those after it.
   */
  lemma RoundTrip(vars: seq<seq<wide>>, beyond: seq<wide>)
    requires forall k :: 0 <= k < |vars| ==> NoZero(vars[k])
    ensures Parse(Block(vars) + beyond) == Some(UntilEmpty(vars))
    ensures Parse(Block(vars) + beyond) == Some(vars) <==> [] !in vars
  {
    UntilEmptyIsAll(vars);
    if vars == [] {
      ParseReads([], [0] + beyond);
      assert Block(vars) + beyond == Chain([]) + [0] + ([0] + beyond);
    } else {
      ParseReads(vars, beyond);
    }
  }

  /** An empty variable between two others hides what follows it. */
  lemma EmptyVariableHides()
    ensures Parse(Block([[65], [], [66]])) == Some([[65]])
  {
    var vars: seq<seq<wide>> := [[65], [], [66]];
    RoundTrip(vars, []);
    assert Block(vars) + [] == Block(vars);
    assert UntilEmpty(vars[1..]) == [];
    assert UntilEmpty(vars) == [vars[0]] + UntilEmpty(vars[1..]) == [[65]];
  }
}
