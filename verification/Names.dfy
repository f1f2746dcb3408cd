/** Container names: which (challenge, owner) pairs share one. */
module Names {
  import opened Base

  /** `str(n)`. */
  function Decimal(n: int): (s: string)
    ensures s != [] && '_' !in s
    decreases n < 0, if n < 0 then -n else n
  {
    if n < 0 then "-" + Decimal(-n)
    else if n < 10 then [Digit(n)]
    else Decimal(n / 10) + [Digit(n % 10)]
  }

  function Digit(n: int): (c: char)
    requires 0 <= n < 10
    ensures '0' <= c <= '9'
  {
    '0' + n as char
  }

  predicate IsDigits(s: string) { forall c :: c in s ==> '0' <= c <= '9' }

  lemma {:induction false} DecimalIsDigits(n: nat)
    ensures IsDigits(Decimal(n))
  {
    if n >= 10 {
      DecimalIsDigits(n / 10);
    }
  }

  lemma SignOfDecimal(n: int)
    ensures Decimal(n)[0] == '-' <==> n < 0
  {
    if n >= 0 {
      DecimalIsDigits(n);
      assert Decimal(n)[0] in Decimal(n);
    }
  }

  lemma {:induction false} DecimalInjective(m: int, n: int)
    requires Decimal(m) == Decimal(n)
    ensures m == n
    decreases m < 0, if m < 0 then -m else m
  {
    SignOfDecimal(m);
    SignOfDecimal(n);
    if m < 0 {
      assert Decimal(m)[1..] == Decimal(-m) && Decimal(n)[1..] == Decimal(-n);
      DecimalInjective(-m, -n);
    } else {
      var sm, sn := Decimal(m), Decimal(n);
      assert sm[|sm| - 1] == sn[|sn| - 1];
      assert m % 10 == n % 10;
      if m >= 10 && n >= 10 {
        assert sm[..|sm| - 1] == Decimal(m / 10) && sn[..|sn| - 1] == Decimal(n / 10);
        DecimalInjective(m / 10, n / 10);
      }
    }
  }

  // ----- slugs

  function Lower(c: char): char {
    if 'A' <= c <= 'Z' then c - 'A' + 'a' else c
  }

  predicate IsSlugChar(c: char) { 'a' <= c <= 'z' || '0' <= c <= '9' }

  /** Each maximal run of other characters becomes one underscore. */
  function Collapse(s: string, inRun: bool): string {
    if s == [] then []
    else if IsSlugChar(Lower(s[0])) then [Lower(s[0])] + Collapse(s[1..], false)
    else if inRun then Collapse(s[1..], true)
    else "_" + Collapse(s[1..], true)
  }

  function StripLeft(s: string): string {
    if s != [] && s[0] == '_' then StripLeft(s[1..]) else s
  }

  function StripRight(s: string): string {
    if s != [] && s[|s| - 1] == '_' then StripRight(s[..|s| - 1]) else s
  }

  /** `_slug`, for ASCII names. */
  function Slug(name: string): string {
    StripRight(StripLeft(Collapse(name, false)))
  }

  /** `container_name_for`. */
  function ContainerName(challengeRef: string, owner: Owner): string {
    "edo_" + Slug(challengeRef) + "_" + owner.kind + "_" + Decimal(owner.id)
  }

  /** The lower-cased runs of letters and digits of a name, `run` being the one under way. */
  function Words(s: string, run: string): seq<string> {
    if s == [] then (if run == [] then [] else [run])
    else if IsSlugChar(Lower(s[0])) then Words(s[1..], run + [Lower(s[0])])
    else (if run == [] then [] else [run]) + Words(s[1..], [])
  }

  /** `"_".join(words)`. */
  function Underscored(words: seq<string>): string {
    if words == [] then "" else if |words| == 1 then words[0] else words[0] + "_" + Underscored(words[1..])
  }

  lemma {:induction false} WordsStartWithRun(s: string, run: string)
    requires run != []
    ensures Words(s, run) != [] && run <= Words(s, run)[0] && run <= Underscored(Words(s, run))
  {
    if s != [] && IsSlugChar(Lower(s[0])) {
      WordsStartWithRun(s[1..], run + [Lower(s[0])]);
    }
  }

  lemma StripRightOf(a: string, b: string)
    requires StripRight(b) != []
    ensures StripRight(a + b) == a + StripRight(b)
    decreases |b|
  {
    if b[|b| - 1] == '_' {
      assert (a + b)[..|a + b| - 1] == a + b[..|b| - 1];
      StripRightOf(a, b[..|b| - 1]);
    }
  }

  /** Behind a run that is under way, collapsing and stripping give the words joined. */
  lemma {:induction false} CollapseAfterRun(s: string, run: string)
    requires run != [] && forall c :: c in run ==> IsSlugChar(c)
    ensures StripRight(run + Collapse(s, false)) == Underscored(Words(s, run))
    decreases |s|, 0
  {
    if s == [] {
      assert run + [] == run && run[|run| - 1] in run;
    } else if IsSlugChar(Lower(s[0])) {
      CollapseAfterRun(s[1..], run + [Lower(s[0])]);
      Regroup(run, [Lower(s[0])], Collapse(s[1..], false));
    } else {
      var rest := Collapse(s[1..], true);
      CollapseBetweenRuns(s[1..]);
      Regroup(run, "_", rest);
      StripAfterRun(run, rest);
    }
  }

  lemma Regroup(a: string, b: string, c: string)
    ensures a + (b + c) == a + b + c
  {}

  lemma StripAfterRun(run: string, rest: string)
    requires run != [] && (forall c :: c in run ==> c != '_') && (rest != [] ==> StripRight(rest) != [])
    ensures StripRight(run + "_" + rest) == if rest == [] then run else run + "_" + StripRight(rest)
  {
    if rest == [] {
      assert run + "_" + rest == run + "_" && (run + "_")[..|run|] == run && run[|run| - 1] in run;
    } else {
      StripRightOf(run + "_", rest);
    }
  }

  /** And so they do between two runs. */
  lemma {:induction false} CollapseBetweenRuns(s: string)
    ensures StripRight(Collapse(s, true)) == Underscored(Words(s, []))
    ensures Collapse(s, true) == [] <==> Words(s, []) == []
    ensures Collapse(s, true) != [] ==> StripRight(Collapse(s, true)) != [] && Collapse(s, true)[0] != '_'
    decreases |s|, 1
  {
    if s != [] {
      if IsSlugChar(Lower(s[0])) {
        var run := [Lower(s[0])];
        assert [] + run == run;
        CollapseAfterRun(s[1..], run);
        WordsStartWithRun(s[1..], run);
      } else {
        CollapseBetweenRuns(s[1..]);
        assert Words(s, []) == [] + Words(s[1..], []) == Words(s[1..], []);
      }
    }
  }

  /** A slug is the words of the name with an underscore between each two. */
  lemma SlugIsWords(name: string)
    ensures Slug(name) == Underscored(Words(name, []))
  {
    if name == [] || !IsSlugChar(Lower(name[0])) {
      if name != [] {
        CollapseBetweenRuns(name[1..]);
        var rest := Collapse(name[1..], true);
        assert Collapse(name, false) == "_" + rest && ("_" + rest)[1..] == rest;
        assert StripLeft("_" + rest) == rest;
        assert Words(name, []) == [] + Words(name[1..], []) == Words(name[1..], []);
      }
    } else {
      var run := [Lower(name[0])];
      assert [] + run == run;
      CollapseAfterRun(name[1..], run);
    }
  }

  lemma {:induction false} CollapseDigits(s: string)
    requires IsDigits(s)
    ensures Collapse(s, false) == s
  {
    if s != [] {
      assert s[0] in s && forall c :: c in s[1..] ==> c in s;
      CollapseDigits(s[1..]);
    }
  }

  /** A numeric challenge reference is its own slug. */
  lemma SlugOfDigits(s: string)
    requires IsDigits(s)
    ensures Slug(s) == s
  {
    CollapseDigits(s);
    if s != [] {
      assert s[0] in s && s[|s| - 1] in s;
    }
  }

  lemma LastUnderscore(a: string, b: string)
    requires '_' !in b
    ensures (a + "_" + b)[|a|] == '_'
    ensures forall i :: |a| < i < |a + "_" + b| ==> (a + "_" + b)[i] != '_'
  {
    forall i | |a| < i < |a + "_" + b|
      ensures (a + "_" + b)[i] != '_'
    {
      assert (a + "_" + b)[i] == b[i - |a| - 1];
    }
  }

  /** The last underscore splits a string in one way. */
  lemma SplitAtLastUnderscore(a: string, b: string, c: string, d: string)
    requires '_' !in b && '_' !in d
    requires a + "_" + b == c + "_" + d
    ensures a == c && b == d
  {
    LastUnderscore(a, b);
    LastUnderscore(c, d);
    var s, t := a + "_" + b, c + "_" + d;
    assert s[|a|] == '_' && s[|c|] == '_';
    assert a == s[..|a|] && c == t[..|c|];
    assert b == s[|a| + 1..] && d == t[|c| + 1..];
  }

  /** Two containers share a name exactly when slug, kind and id agree. CTFd's kinds are
      "user" and "team", so they hold no underscore. */
  lemma SameNameIff(ref: string, owner: Owner, ref': string, owner': Owner)
    requires '_' !in owner.kind && '_' !in owner'.kind
    ensures ContainerName(ref, owner) == ContainerName(ref', owner') <==> Slug(ref) == Slug(ref') && owner == owner'
  {
    if ContainerName(ref, owner) == ContainerName(ref', owner') {
      var a, a' := "edo_" + Slug(ref), "edo_" + Slug(ref');
      SplitAtLastUnderscore(a + "_" + owner.kind, Decimal(owner.id), a' + "_" + owner'.kind, Decimal(owner'.id));
      DecimalInjective(owner.id, owner'.id);
      SplitAtLastUnderscore(a, owner.kind, a', owner'.kind);
      assert a[4..] == Slug(ref) && a'[4..] == Slug(ref');
    }
  }

  lemma NumericName(challenge: nat, owner: Owner)
    ensures ContainerName(Decimal(challenge), owner) ==
            "edo_" + Decimal(challenge) + "_" + owner.kind + "_" + Decimal(owner.id)
  {
    DecimalIsDigits(challenge);
    SlugOfDigits(Decimal(challenge));
  }

  /** The plugin sends `str(challenge_id)`, so distinct (challenge, owner) pairs get distinct names. */
  lemma NumericNamesAreInjective(challenge: nat, owner: Owner, challenge': nat, owner': Owner)
    requires '_' !in owner.kind && '_' !in owner'.kind
    requires ContainerName(Decimal(challenge), owner) == ContainerName(Decimal(challenge'), owner')
    ensures challenge == challenge' && owner == owner'
  {
    DecimalIsDigits(challenge);
    DecimalIsDigits(challenge');
    SlugOfDigits(Decimal(challenge));
    SlugOfDigits(Decimal(challenge'));
    SameNameIff(Decimal(challenge), owner, Decimal(challenge'), owner');
    DecimalInjective(challenge, challenge');
  }
}
