/** EIP-712 struct types (keepkeylib/erc7730_compiler.py): `_typed_base` turns a
    type name into a tree, `eip712_encode_type` lists the structs it needs. */
module Eip712Types {
  import opened Wrappers
  import opened Text
  import opened AbiTypes
  import SignatureParser
  import SignatureRoundTrip

  datatype Member = Member(name: string, typeName: string)

  type Types = map<string, seq<Member>>

  // ------------------------------------------------------------- array suffixes

  /** How many digits end a text. */
  function DigitsBack(s: string): (n: nat)
    ensures n <= |s|
  {
    if s != "" && IsDigit(s[|s| - 1]) then 1 + DigitsBack(s[..|s| - 1]) else 0
  }

  /** The last `[n]` or `[]` of a text: what stands in front, and the digits. */
  function LastDimension(s: string): (r: Option<(string, string)>)
    ensures r.Some? ==> |r.value.0| < |s|
  {
    if s == "" || s[|s| - 1] != ']' then None
    else
      var body := s[..|s| - 1];
      var rest := body[..|body| - DigitsBack(body)];
      if rest == "" || rest[|rest| - 1] != '[' then None
      else Some((rest[..|rest| - 1], body[|body| - DigitsBack(body)..]))
  }

  /** `^(.*)\[([0-9]*)\]$`: the dot matches no line feed. */
  function MatchArray(s: string): (r: Option<(string, string)>)
    ensures r.Some? ==> |r.value.0| < |s|
  {
    match LastDimension(OneLine(s))
    case Some((base, digits)) => if '\n' in base then None else Some((base, digits))
    case None => None
  }

  /** A member type without its array suffixes, as `_typed_base` strips them. */
  function Base(s: string): string
    decreases |s|
  {
    match MatchArray(s)
    case Some((base, _)) => Base(base)
    case None => s
  }

  // ------------------------------------------------------------ `_typed_base`

  /** A type that is no struct: all of the text must parse. */
  function WholeType(s: string): Result<AbiType> {
    var (t, rest) :- SignatureParser.ParseType(s);
    if SkipSpace(rest) == "" then Ok(t) else Raised
  }

  /** `_typed_base`. It ends because an array name gets shorter, and a struct
      name joins the structs that are active. */
  function TypedBase(s: string, types: Types, active: set<string>): Result<AbiType>
    decreases types.Keys - active, |s|, 0
  {
    match MatchArray(s)
    case Some((base, digits)) =>
      var child :- TypedBase(base, types, active);
      Ok(Array("", child, if digits == "" then ABSENT else DigitsValue(digits)))
    case None =>
      if s in types then
        if s in active then Raised
        else
          var members :- TypedMembers(types[s], types, active + {s});
          Ok(Tuple("", members))
      else WholeType(s)
  }

  function TypedMembers(members: seq<Member>, types: Types, active: set<string>): Result<seq<AbiType>>
    decreases types.Keys - active, |members| + LongestType(members), 1
  {
    if members == [] then Ok([])
    else
      var child :- TypedBase(members[0].typeName, types, active);
      var rest :- TypedMembers(members[1..], types, active);
      Ok([child.Rename(members[0].name)] + rest)
  }

  /** A bound on the lengths of member types, for termination only. */
  function LongestType(members: seq<Member>): (n: nat)
    ensures forall i :: 0 <= i < |members| ==> |members[i].typeName| <= n
    ensures members != [] ==> LongestType(members[1..]) <= n
  {
    if members == [] then 0
    else
      var rest := LongestType(members[1..]);
      assert forall i :: 1 <= i < |members| ==> members[i] == members[1..][i - 1];
      if |members[0].typeName| > rest then |members[0].typeName| else rest
  }

  // -------------------------------------------------------------------- graphs

  type Graph = map<string, set<string>>

  /** Struct names with an edge to each struct a member's type is built on. */
  ghost function BaseGraph(types: Types): Graph {
    map a | a in types :: set m | m in types[a] && Base(m.typeName) in types :: Base(m.typeName)
  }

  /** Consecutive names of a walk are joined by edges. */
  predicate IsWalk(g: Graph, p: seq<string>) {
    && p != [] && p[0] in g
    && (|p| == 1 || (p[1] in g[p[0]] && IsWalk(g, p[1..])))
  }

  predicate NoRepeat(p: seq<string>) {
    forall i, j :: 0 <= i < j < |p| ==> p[i] != p[j]
  }

  /** Some walk from `a` comes to a struct twice. */
  ghost predicate CycleReachable(g: Graph, a: string) {
    exists p :: IsWalk(g, p) && p[0] == a && !NoRepeat(p)
  }

  ghost predicate Reaches(g: Graph, a: string, b: string) {
    exists p :: IsWalk(g, p) && p[0] == a && p[|p| - 1] == b
  }

  /** Every member of struct `a` that is no struct parses. */
  ghost predicate MembersParse(types: Types, a: string)
    requires a in types
  {
    forall m :: m in types[a] ==> Base(m.typeName) in types || WholeType(Base(m.typeName)).Ok?
  }

  ghost predicate WalkSafe(types: Types, active: set<string>, p: seq<string>) {
    && NoRepeat(p) && (forall i :: 0 <= i < |p| ==> p[i] !in active)
    && p != [] && p[|p| - 1] in types && MembersParse(types, p[|p| - 1])
  }

  /** No walk from struct `a` repeats itself or comes to an active struct, and
      whatever it comes to has members that parse. */
  ghost predicate Safe(types: Types, active: set<string>, a: string) {
    forall p :: IsWalk(BaseGraph(types), p) && p[0] == a ==> WalkSafe(types, active, p)
  }

  /** A struct is safe exactly when it is not active and its members are safe
      with it active. */
  lemma SafeStep(types: Types, active: set<string>, a: string)
    requires a in types
    ensures Safe(types, active, a) <==>
            && a !in active && MembersParse(types, a)
            && (forall m :: m in types[a] && Base(m.typeName) in types ==> Safe(types, active + {a}, Base(m.typeName)))
  {
    if Safe(types, active, a) {
      SafeAlone(types, active, a);
      forall m | m in types[a] && Base(m.typeName) in types ensures Safe(types, active + {a}, Base(m.typeName)) {
        SafeMember(types, active, a, m);
      }
    }
    if && a !in active && MembersParse(types, a)
       && (forall m :: m in types[a] && Base(m.typeName) in types ==> Safe(types, active + {a}, Base(m.typeName))) {
      forall p | IsWalk(BaseGraph(types), p) && p[0] == a ensures WalkSafe(types, active, p) {
        MembersSafe(types, active, a, p);
      }
    }
  }

  lemma SafeAlone(types: Types, active: set<string>, a: string)
    requires a in types && Safe(types, active, a)
    ensures a !in active && MembersParse(types, a)
  {
    assert IsWalk(BaseGraph(types), [a]);
    assert WalkSafe(types, active, [a]);
    assert [a][0] == a;
  }

  lemma SafeMember(types: Types, active: set<string>, a: string, m: Member)
    requires a in types && Safe(types, active, a) && m in types[a] && Base(m.typeName) in types
    ensures Safe(types, active + {a}, Base(m.typeName))
  {
    hide Base, MembersParse;
    var g, b := BaseGraph(types), Base(m.typeName);
    forall p | IsWalk(g, p) && p[0] == b ensures WalkSafe(types, active + {a}, p) {
      var q := [a] + p;
      assert q[1..] == p && b in g[a];
      assert IsWalk(g, q) && WalkSafe(types, active, q);
      forall i | 0 <= i < |p| ensures p[i] !in active + {a} {
        assert q[i + 1] == p[i] && q[0] == a;
      }
      forall i, j | 0 <= i < j < |p| ensures p[i] != p[j] {
        assert q[i + 1] == p[i] && q[j + 1] == p[j];
      }
      assert q[|q| - 1] == p[|p| - 1];
    }
  }

  lemma MembersSafe(types: Types, active: set<string>, a: string, p: seq<string>)
    requires a in types && a !in active && MembersParse(types, a)
    requires forall m :: m in types[a] && Base(m.typeName) in types ==> Safe(types, active + {a}, Base(m.typeName))
    requires IsWalk(BaseGraph(types), p) && p[0] == a
    ensures WalkSafe(types, active, p)
  {
    hide Base, MembersParse;
    if |p| > 1 {
      var rest := p[1..];
      var m :| m in types[a] && Base(m.typeName) in types && Base(m.typeName) == p[1];
      assert Safe(types, active + {a}, p[1]);
      assert WalkSafe(types, active + {a}, rest);
      forall i | 0 <= i < |p| ensures p[i] !in active && (i > 0 ==> p[i] != a) {
        if i > 0 {
          assert rest[i - 1] == p[i] && p[i] !in active + {a};
        }
      }
      forall i, j | 0 <= i < j < |p| ensures p[i] != p[j] {
        if i > 0 {
          assert rest[i - 1] == p[i] && rest[j - 1] == p[j];
        }
      }
      assert rest[|rest| - 1] == p[|p| - 1];
    }
  }

  /** What the member loop needs, member by member. */
  ghost predicate MemberSafe(types: Types, active: set<string>, m: Member) {
    var b := Base(m.typeName);
    if b in types then Safe(types, active, b) else WholeType(b).Ok?
  }

  /** A type is turned into a tree exactly when its base is safe. */
  lemma {:induction false} TypedBaseIff(s: string, types: Types, active: set<string>)
    ensures TypedBase(s, types, active).Ok? <==>
            if Base(s) in types then Safe(types, active, Base(s)) else WholeType(Base(s)).Ok?
    decreases types.Keys - active, |s|, 0
  {
    hide Safe, WholeType;
    match MatchArray(s)
    case Some((base, digits)) =>
      TypedBaseIff(base, types, active);
    case None =>
      if s in types {
        SafeStep(types, active, s);
        if s !in active {
          TypedMembersIff(types[s], types, active + {s});
          assert (forall m :: m in types[s] ==> MemberSafe(types, active + {s}, m)) <==>
                 MembersParse(types, s)
                 && (forall m :: m in types[s] && Base(m.typeName) in types ==>
                     Safe(types, active + {s}, Base(m.typeName)));
        }
      }
  }

  lemma {:induction false} TypedMembersIff(members: seq<Member>, types: Types, active: set<string>)
    ensures TypedMembers(members, types, active).Ok? <==> forall m :: m in members ==> MemberSafe(types, active, m)
    decreases types.Keys - active, |members| + LongestType(members), 1
  {
    hide Safe, WholeType, Base, LongestType;
    if members != [] {
      TypedBaseIff(members[0].typeName, types, active);
      assert MemberSafe(types, active, members[0]) <==> TypedBase(members[0].typeName, types, active).Ok?;
      TypedMembersIff(members[1..], types, active);
      hide MemberSafe;
      assert members == [members[0]] + members[1..];
      assert members[0] in members;
    }
  }

  /** All struct members that can be reached parse. */
  ghost predicate AllParse(types: Types) {
    forall a :: a in types ==> MembersParse(types, a)
  }

  /** `_typed_base` succeeds exactly when no struct cycle can be reached, if
      every member that is no struct is a valid type. */
  lemma TypedBaseSucceedsIff(s: string, types: Types)
    requires AllParse(types) && Base(s) in types
    ensures TypedBase(s, types, {}).Ok? <==> !CycleReachable(BaseGraph(types), Base(s))
  {
    hide MembersParse, BaseGraph, NoRepeat;
    TypedBaseIff(s, types, {});
    var g := BaseGraph(types);
    if !CycleReachable(g, Base(s)) {
      forall p | IsWalk(g, p) && p[0] == Base(s) ensures WalkSafe(types, {}, p) {
        WalkEnds(types, p);
      }
    }
    if Safe(types, {}, Base(s)) {
      forall p | IsWalk(g, p) && p[0] == Base(s) ensures NoRepeat(p) {
        assert WalkSafe(types, {}, p);
      }
    }
  }

  lemma {:induction false} WalkEnds(types: Types, p: seq<string>)
    requires IsWalk(BaseGraph(types), p)
    ensures p[|p| - 1] in types
    decreases |p|
  {
    if |p| > 1 {
      WalkEnds(types, p[1..]);
    }
  }

  // ----------------------------------------------------------- the typed tree

  predicate NamesAllowed(members: seq<Member>) {
    forall i :: 0 <= i < |members| ==> MemberName(members[i].name)
  }

  /** The tree is valid and keeps the members' names. */
  lemma {:induction false} TypedBaseValid(s: string, types: Types, active: set<string>)
    requires TypedBase(s, types, active).Ok? && forall a :: a in types ==> NamesAllowed(types[a])
    ensures var t := TypedBase(s, types, active).value;
            Valid(t) && WellNamed(t) && t.name == "" && (MatchArray(s).None? && s in types ==> t.Tuple?)
    decreases types.Keys - active, |s|, 0
  {
    match MatchArray(s)
    case Some((base, digits)) => TypedBaseValid(base, types, active);
    case None =>
      if s in types {
        TypedMembersValid(types[s], types, active + {s});
      } else {
        SignatureParser.ParsedTypeValid(s);
      }
  }

  lemma {:induction false} TypedMembersValid(members: seq<Member>, types: Types, active: set<string>)
    requires TypedMembers(members, types, active).Ok?
    requires NamesAllowed(members) && forall a :: a in types ==> NamesAllowed(types[a])
    ensures var ts := TypedMembers(members, types, active).value;
            && AllValid(ts) && AllWellNamed(ts) && |ts| == |members|
            && forall i :: 0 <= i < |ts| ==> ts[i].name == members[i].name
    decreases types.Keys - active, |members| + LongestType(members), 1
  {
    if members != [] {
      TypedBaseValid(members[0].typeName, types, active);
      assert forall i :: 1 <= i < |members| ==> members[i] == members[1..][i - 1];
      TypedMembersValid(members[1..], types, active);
    }
  }

  /** `compile_eip712` writes the tree of the primary struct as a signature with
      member names; parsing that text gives the same tree. */
  lemma TypedSignatureParses(primary: string, types: Types)
    requires IsIdentifier(primary) && primary in types && forall a :: a in types ==> NamesAllowed(types[a])
    requires TypedBase(primary, types, {}).Ok?
    ensures var root := TypedBase(primary, types, {}).value;
            && root.Tuple?
            && SignatureParser.ParseFunction(SignatureRoundTrip.NamedSignature(primary, root.members)) ==
                 Ok((primary, root))
  {
    TypedBaseValid(primary, types, {});
    IdentifierIsNoArray(primary);
    var root := TypedBase(primary, types, {}).value;
    SignatureRoundTrip.ParseUndoesNamedSignature(primary, root.members);
  }

  lemma IdentifierIsNoArray(s: string)
    requires IsIdentifier(s)
    ensures MatchArray(s).None?
  {
    assert s[|s| - 1] != ']' && s[|s| - 1] != '\n';
  }
}
