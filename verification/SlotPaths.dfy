/** Access paths beneath an abstract object.

The engine keeps a slot path as one string, the steps joined by slashes. Every
other module here works on sequences of steps; this module shows that the
string helpers compute the step-sequence notions on every rendered path. */
module SlotPaths {

  datatype Step = Field(field: nat) | Index(position: nat) | AnyIndex | Binding(binding: nat)

  type Path = seq<Step>

  /** Whether a step selects an array or slice element, statically or not. */
  predicate IsIndex(step: Step) {
    step.Index? || step.AnyIndex?
  }

  // ---- Step sequences -------------------------------------------------------

  function Parent(path: Path): Path {
    if path == [] then [] else path[..|path| - 1]
  }

  predicate EndsInIndex(path: Path) {
    path != [] && IsIndex(path[|path| - 1])
  }

  predicate EndsInStar(path: Path) {
    path != [] && path[|path| - 1] == AnyIndex
  }

  predicate Concrete(path: Path) {
    AnyIndex !in path
  }

  predicate StepMatches(pattern: Step, step: Step) {
    pattern == step || (pattern == AnyIndex && step.Index?)
  }

  /** path is one of the locations that pattern may denote at run time. */
  predicate Matches(pattern: Path, path: Path) {
    |pattern| == |path| &&
    forall i | 0 <= i < |path| :: StepMatches(pattern[i], path[i])
  }

  predicate StepsMayAlias(a: Step, b: Step) {
    a == b || (IsIndex(a) && IsIndex(b) && (a == AnyIndex || b == AnyIndex))
  }

  predicate PathsMayAlias(left: Path, right: Path) {
    |left| == |right| &&
    forall i | 0 <= i < |left| :: StepsMayAlias(left[i], right[i])
  }

  function CommonStep(a: Step, b: Step): (r: Step)
    requires StepsMayAlias(a, b)
    ensures StepMatches(a, r) && StepMatches(b, r) && r != AnyIndex
  {
    if a != AnyIndex then a else if b != AnyIndex then b else Index(0)
  }

  /** The alias test on paths is exact: two wildcard paths may alias just when
  some run-time location is an instance of both. */
  lemma PathsMayAliasExactly(left: Path, right: Path)
    ensures PathsMayAlias(left, right) <==>
            exists p :: Concrete(p) && Matches(left, p) && Matches(right, p)
  {
    if PathsMayAlias(left, right) {
      var p := seq(|left|, i requires 0 <= i < |left| => CommonStep(left[i], right[i]));
      assert Concrete(p) && Matches(left, p) && Matches(right, p);
    }
    if p :| Concrete(p) && Matches(left, p) && Matches(right, p) {
      forall i | 0 <= i < |left| ensures StepsMayAlias(left[i], right[i]) {
        assert StepMatches(left[i], p[i]) && StepMatches(right[i], p[i]);
      }
    }
  }

  /** A path denotes one run-time location exactly when it has no wildcard. */
  lemma ConcreteExactly(path: Path)
    ensures Concrete(path) <==>
            forall p, q | Concrete(p) && Concrete(q) && Matches(path, p) && Matches(path, q) :: p == q
  {
    if Concrete(path) {
      forall p, q | Concrete(p) && Concrete(q) && Matches(path, p) && Matches(path, q) ensures p == q {
        forall i | 0 <= i < |path| ensures p[i] == q[i] {
          assert path[i] in path && StepMatches(path[i], p[i]) && StepMatches(path[i], q[i]);
        }
      }
    } else {
      var p, q := Instance(path, 0), Instance(path, 1);
      var i :| 0 <= i < |path| && path[i] == AnyIndex;
      assert p[i] != q[i];
    }
  }

  /** Replaces every wildcard by one position. */
  function Instance(path: Path, position: nat): (p: Path)
    ensures Concrete(p) && Matches(path, p)
    ensures forall i | 0 <= i < |path| && path[i] == AnyIndex :: p[i] == Index(position)
  {
    seq(|path|, i requires 0 <= i < |path| => if path[i] == AnyIndex then Index(position) else path[i])
  }

  /** The exactness test of a single slot looks at the last step only. It keeps
  its promise on a path exactly when no earlier step is a wildcard. */
  lemma LastStepTestExactly(path: Path)
    requires !EndsInStar(path)
    ensures Concrete(path) <==> Concrete(Parent(path))
  {
    if path != [] {
      assert path == Parent(path) + [path[|path| - 1]];
    }
  }

  // ---- Rendered paths -------------------------------------------------------

  function Digit(d: nat): (c: char)
    requires d < 10
    ensures c != '/' && c != '*'
  {
    ['0', '1', '2', '3', '4', '5', '6', '7', '8', '9'][d]
  }

  function Decimal(n: nat): (s: string)
    ensures s != [] && '/' !in s && '*' !in s
  {
    if n < 10 then [Digit(n)] else Decimal(n / 10) + [Digit(n % 10)]
  }

  lemma DigitInjective(a: nat, b: nat)
    requires a < 10 && b < 10 && Digit(a) == Digit(b)
    ensures a == b
  {
    var digits := ['0', '1', '2', '3', '4', '5', '6', '7', '8', '9'];
    assert forall i, j | 0 <= i < j < 10 :: digits[i] != digits[j];
  }

  lemma {:induction false} DecimalInjective(a: nat, b: nat)
    requires Decimal(a) == Decimal(b)
    ensures a == b
  {
    var s, t := Decimal(a), Decimal(b);
    assert s[|s| - 1] == Digit(a % 10) && t[|t| - 1] == Digit(b % 10);
    DigitInjective(a % 10, b % 10);
    if a >= 10 && b >= 10 {
      assert Decimal(a / 10) == s[..|s| - 1] && Decimal(b / 10) == t[..|t| - 1];
      DecimalInjective(a / 10, b / 10);
    }
  }

  function Text(step: Step): (s: string)
    ensures Clean(s)
  {
    match step
    case Field(n) => "field:" + Decimal(n)
    case Index(n) => "index:" + Decimal(n)
    case AnyIndex => "index:*"
    case Binding(n) => "binding:" + Decimal(n)
  }

  lemma TextInjective(a: Step, b: Step)
    requires Text(a) == Text(b)
    ensures a == b
  {
    var s, t := Text(a), Text(b);
    assert s[0] == t[0];
    assert a.Field? ==> s[0] == 'f';
    assert b.Field? ==> t[0] == 'f';
    assert a.Binding? ==> s[0] == 'b';
    assert b.Binding? ==> t[0] == 'b';
    assert IsIndex(a) ==> s[0] == 'i';
    assert IsIndex(b) ==> t[0] == 'i';
    assert a.AnyIndex? <==> '*' in s;
    assert b.AnyIndex? <==> '*' in t;
    if !a.AnyIndex? {
      var k := if a.Binding? then 8 else 6;
      var m, n := Number(a), Number(b);
      assert s[k..] == Decimal(m) && t[k..] == Decimal(n);
      DecimalInjective(m, n);
    }
  }

  function Number(step: Step): nat
    requires !step.AnyIndex?
  {
    match step
    case Field(n) => n
    case Index(n) => n
    case Binding(n) => n
  }

  predicate Clean(step: string) {
    step != [] && '/' !in step
  }

  function Joined(steps: seq<string>): string {
    if steps == [] then ""
    else if |steps| == 1 then steps[0]
    else steps[0] + "/" + Joined(steps[1..])
  }

  function Texts(path: Path): (r: seq<string>)
    ensures |r| == |path| && forall i | 0 <= i < |path| :: r[i] == Text(path[i])
  {
    seq(|path|, i requires 0 <= i < |path| => Text(path[i]))
  }

  /** The string the engine stores for a path. */
  function Render(path: Path): string {
    Joined(Texts(path))
  }

  function Split(joined: string): (r: seq<string>) {
    if joined == "" then [] else SplitSlash(joined)
  }

  function SplitSlash(s: string): (r: seq<string>)
    ensures r != []
  {
    if '/' !in s then [s]
    else
      var i := FirstSlash(s);
      [s[..i]] + SplitSlash(s[i + 1..])
  }

  function FirstSlash(s: string): (i: nat)
    requires '/' in s
    ensures i < |s| && s[i] == '/' && '/' !in s[..i]
  {
    if s[0] == '/' then 0 else
      var i := 1 + FirstSlash(s[1..]);
      assert s[..i] == [s[0]] + s[1..][..i - 1];
      i
  }

  predicate AllClean(steps: seq<string>) {
    forall i | 0 <= i < |steps| :: Clean(steps[i])
  }

  /** Splitting reverses joining on clean steps. */
  lemma {:induction false} SplitJoined(steps: seq<string>)
    requires AllClean(steps)
    ensures Split(Joined(steps)) == steps
    ensures Joined(steps) == "" <==> steps == []
  {
    if |steps| == 1 {
      assert SplitSlash(steps[0]) == [steps[0]];
    } else if |steps| > 1 {
      var s, first, rest := Joined(steps), steps[0], steps[1..];
      SplitJoined(rest);
      assert s[|first|] == '/';
      var i := FirstSlash(s);
      assert forall k | 0 <= k < |first| :: s[k] == first[k] && first[k] in first;
      assert forall k | 0 <= k < i :: s[k] in s[..i];
      assert i == |first|;
      assert s[..i] == first && s[i + 1..] == Joined(rest);
      assert SplitSlash(s) == [first] + SplitSlash(Joined(rest));
      assert Joined(rest) != "";
    }
  }

  lemma RenderInjective(a: Path, b: Path)
    requires Render(a) == Render(b)
    ensures a == b
  {
    SplitJoined(Texts(a));
    SplitJoined(Texts(b));
    assert Texts(a) == Texts(b);
    forall i | 0 <= i < |a| ensures a[i] == b[i] {
      assert Texts(a)[i] == Texts(b)[i];
      TextInjective(a[i], b[i]);
    }
  }

  lemma {:induction false} JoinedAppend(a: seq<string>, b: seq<string>)
    requires a != [] && b != []
    ensures Joined(a + b) == Joined(a) + "/" + Joined(b)
  {
    if |a| == 1 {
      assert (a + b)[1..] == b;
    } else {
      assert (a + b)[1..] == a[1..] + b;
      JoinedAppend(a[1..], b);
    }
  }

  lemma RenderAppend(a: Path, b: Path)
    requires a != [] && b != []
    ensures Render(a + b) == Render(a) + "/" + Render(b)
  {
    assert Texts(a + b) == Texts(a) + Texts(b);
    JoinedAppend(Texts(a), Texts(b));
  }

  // ---- The string helpers ---------------------------------------------------

  function JoinSlotPath(path: string, step: string): string {
    if path == "" then step
    else if step == "" then path
    else path + "/" + step
  }

  predicate HasPrefix(s: string, prefix: string) {
    prefix <= s
  }

  predicate SlotBeneath(path: string, prefix: string) {
    prefix == "" || path == prefix || HasPrefix(path, prefix + "/")
  }

  /** One past the last slash, or zero. */
  function AfterLastSlash(s: string): (i: nat)
    ensures i <= |s| && '/' !in s[i..] && (i > 0 ==> s[i - 1] == '/')
  {
    if s == "" then 0
    else if s[|s| - 1] == '/' then |s|
    else
      var i := AfterLastSlash(s[..|s| - 1]);
      assert s[i..] == s[..|s| - 1][i..] + [s[|s| - 1]];
      i
  }

  function LastStep(path: string): string {
    path[AfterLastSlash(path)..]
  }

  function ParentPath(path: string): string {
    var index := |path| - |LastStep(path)| - 1;
    if index > 0 then path[..index] else ""
  }

  function TrimSlash(path: string): string {
    if |path| > 0 && path[0] == '/' then path[1..] else path
  }

  predicate IsIndexStep(step: string) {
    HasPrefix(step, "index:")
  }

  lemma JoinSlotPathRendered(path: Path, rest: Path)
    ensures JoinSlotPath(Render(path), Render(rest)) == Render(path + rest)
  {
    SplitJoined(Texts(path));
    SplitJoined(Texts(rest));
    if path == [] {
      assert path + rest == rest;
    } else if rest == [] {
      assert path + rest == path;
    } else {
      RenderAppend(path, rest);
    }
  }

  /** The textual prefix test is the prefix relation on steps. */
  lemma SlotBeneathRendered(path: Path, prefix: Path)
    ensures SlotBeneath(Render(path), Render(prefix)) <==> prefix <= path
  {
    SplitJoined(Texts(prefix));
    if prefix <= path {
      var rest := path[|prefix|..];
      assert path == prefix + rest;
      if prefix != [] && rest != [] {
        RenderAppend(prefix, rest);
      } else if rest == [] {
        assert path == prefix;
      }
    }
    if SlotBeneath(Render(path), Render(prefix)) && prefix != [] {
      if Render(path) == Render(prefix) {
        RenderInjective(path, prefix);
      } else {
        BeneathIsPrefix(Texts(path), Texts(prefix));
        forall i | 0 <= i < |prefix| ensures prefix[i] == path[i] {
          assert Texts(prefix)[i] == Texts(path)[i];
          TextInjective(prefix[i], path[i]);
        }
      }
    }
  }

  /** Two clean first steps, each ended by a slash in one string, are the same. */
  lemma SameFirstStep(s: string, a: string, b: string)
    requires Clean(a) && Clean(b) && a + "/" <= s && b + "/" <= s
    ensures a == b
  {
    assert s[|a|] == '/' && s[|b|] == '/';
    assert forall i | 0 <= i < |a| :: s[i] == a[i] && a[i] in a;
    assert forall i | 0 <= i < |b| :: s[i] == b[i] && b[i] in b;
  }

  lemma JoinedHead(steps: seq<string>)
    requires |steps| > 1
    ensures Joined(steps) == steps[0] + "/" + Joined(steps[1..])
  {
  }

  lemma {:induction false} BeneathIsPrefix(steps: seq<string>, prefix: seq<string>)
    requires AllClean(steps) && AllClean(prefix) && prefix != []
    requires Joined(prefix) + "/" <= Joined(steps)
    ensures prefix <= steps
  {
    var s, p, b := Joined(steps), Joined(prefix) + "/", prefix[0];
    assert b + "/" <= p;
    if |steps| > 1 {
      var a := steps[0];
      JoinedHead(steps);
      assert a + "/" <= s;
      SameFirstStep(s, a, b);
      if |prefix| > 1 {
        assert p == (a + "/") + (Joined(prefix[1..]) + "/");
        assert s == (a + "/") + Joined(steps[1..]);
        assert s[|a| + 1..] == Joined(steps[1..]);
        BeneathIsPrefix(steps[1..], prefix[1..]);
        assert prefix == [a] + prefix[1..] && steps == [a] + steps[1..];
      }
    } else {
      CleanEndsNothing(steps[0], b);
    }
  }

  /** No slash ends a first step inside a clean one. */
  lemma CleanEndsNothing(step: string, first: string)
    requires Clean(step)
    ensures !(first + "/" <= step)
  {
    assert (first + "/")[|first|] == '/';
    assert forall i | 0 <= i < |step| :: step[i] in step;
  }

  lemma LastStepOfAppend(s: string, step: string)
    requires Clean(step) && s != ""
    ensures LastStep(s + "/" + step) == step && ParentPath(s + "/" + step) == s
  {
    var joined := s + "/" + step;
    assert joined[|s| + 1..] == step;
    AfterLastSlashIs(joined, |s| + 1);
    assert joined[..|s|] == s;
  }

  lemma LastStepAlone(step: string)
    requires Clean(step)
    ensures LastStep(step) == step && ParentPath(step) == ""
  {
    AfterLastSlashIs(step, 0);
  }

  lemma AfterLastSlashIs(s: string, i: nat)
    requires i <= |s| && '/' !in s[i..] && (i > 0 ==> s[i - 1] == '/')
    ensures AfterLastSlash(s) == i
  {
    var j := AfterLastSlash(s);
    assert forall k | j <= k < |s| :: s[k] in s[j..];
    assert forall k | i <= k < |s| :: s[k] in s[i..];
  }

  /** The last step and the parent, read off the string. */
  lemma LastStepRendered(path: Path)
    requires path != []
    ensures LastStep(Render(path)) == Text(path[|path| - 1])
    ensures ParentPath(Render(path)) == Render(Parent(path))
  {
    var last := path[|path| - 1];
    RenderOne(last);
    if |path| > 1 {
      assert path == Parent(path) + [last];
      RenderAppend(Parent(path), [last]);
      RenderNonempty(Parent(path));
      LastStepOfAppend(Render(Parent(path)), Text(last));
    } else {
      assert path == [last];
      LastStepAlone(Text(last));
    }
  }

  lemma RenderOne(step: Step)
    ensures Render([step]) == Text(step)
  {
    assert Texts([step]) == [Text(step)];
  }

  lemma RenderNonempty(path: Path)
    ensures Render(path) == "" <==> path == []
  {
    SplitJoined(Texts(path));
  }

  lemma IndexStepRendered(step: Step)
    ensures IsIndexStep(Text(step)) <==> IsIndex(step)
  {
    var s := Text(step);
    assert step.Field? ==> s[0] == 'f';
    assert step.Binding? ==> s[0] == 'b';
    assert "index:"[0] == 'i';
  }

  /** A relative path cut out of a rendered path names the same steps. */
  lemma TrimSlashRendered(path: Path, prefix: Path)
    requires prefix <= path
    ensures Render(prefix) <= Render(path)
    ensures TrimSlash(Render(path)[|Render(prefix)|..]) == Render(path[|prefix|..])
  {
    var rest := path[|prefix|..];
    assert path == prefix + rest;
    if prefix == [] {
      assert rest == path;
      SplitJoined(Texts(path));
      if path != [] {
        var first := Texts(path)[0];
        assert Render(path)[0] == first[0] && first[0] in first;
      }
    } else if rest == [] {
      assert path == prefix;
      SplitJoined(Texts(rest));
    } else {
      RenderAppend(prefix, rest);
      assert Render(path)[|Render(prefix)|..] == "/" + Render(rest);
    }
  }

  /** The engine's alias test on path strings. */
  predicate TextPathsMayAlias(left: string, right: string) {
    left == right ||
    var a, b := Split(left), Split(right);
    |a| == |b| &&
    forall i | 0 <= i < |a| ::
      a[i] == b[i] || (IsIndexStep(a[i]) && IsIndexStep(b[i]) && (a[i] == "index:*" || b[i] == "index:*"))
  }

  lemma TextPathsMayAliasRendered(left: Path, right: Path)
    ensures TextPathsMayAlias(Render(left), Render(right)) <==> PathsMayAlias(left, right)
  {
    SplitJoined(Texts(left));
    SplitJoined(Texts(right));
    if Render(left) == Render(right) {
      RenderInjective(left, right);
    }
    var a, b := Texts(left), Texts(right);
    assert Split(Render(left)) == a && Split(Render(right)) == b;
    forall i | 0 <= i < |left| && |left| == |right|
      ensures StepsMayAlias(left[i], right[i]) <==>
              (a[i] == b[i] || (IsIndexStep(a[i]) && IsIndexStep(b[i]) && (a[i] == "index:*" || b[i] == "index:*")))
    {
      IndexStepRendered(left[i]);
      IndexStepRendered(right[i]);
      if a[i] == b[i] { TextInjective(left[i], right[i]); }
      if a[i] == "index:*" { TextInjective(left[i], AnyIndex); }
      if b[i] == "index:*" { TextInjective(right[i], AnyIndex); }
    }
  }
}
