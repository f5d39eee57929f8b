/** The consolidated membership search of the action-based task-assignation filter
    (ActionBasedTaskAssignationFilter.filter, step 3): the filters handed to a
    `SearchOptionsBuilder`, recorded as a sequence of tokens. */
module MembershipQuery {
  import opened JavaLang
  import opened InvolvedUsers

  /** One call on the search builder: `filter(ENABLED, b)`, `filter(GROUP_ID, id)`,
      `filter(ROLE_ID, id)`, `and()`, `or()`, `leftParenthesis()`, `rightParenthesis()`. */
  datatype Token =
    | EnabledIs(enabled: bool)
    | GroupIs(groupId: Int64)
    | RoleIs(roleId: Int64)
    | And
    | Or
    | LeftParen
    | RightParen

  /** `new SearchOptionsBuilder(startIndex, maxResults)` with its filters, after `done()`. */
  datatype SearchOptions = SearchOptions(startIndex: nat, maxResults: nat, filters: seq<Token>)

  /** What one membership adds to the disjunction (lines 180-190). */
  function MembershipTerm(m: Membership): seq<Token>
  {
    if m.groupId.Some? && m.roleId.Some? then
      [LeftParen, GroupIs(m.groupId.value), And, RoleIs(m.roleId.value), RightParen]
    else if m.groupId.Some? then [GroupIs(m.groupId.value)]
    else if m.roleId.Some? then [RoleIs(m.roleId.value)]
    else []
  }

  /** The terms of all memberships, each one after the first preceded by `or()`. */
  function Disjunction(ms: seq<Membership>): seq<Token>
    decreases |ms|
  {
    if ms == [] then []
    else Disjunction(ms[..|ms| - 1]) + (if |ms| > 1 then [Or] else []) + MembershipTerm(ms[|ms| - 1])
  }

  /** The whole filter list: `ENABLED = true AND ( disjunction )`. */
  function MembershipFilters(ms: seq<Membership>): seq<Token>
  {
    [EnabledIs(true), And, LeftParen] + Disjunction(ms) + [RightParen]
  }

  /** Taking one more membership appends its `or()` and term. */
  lemma DisjunctionStep(ms: seq<Membership>, i: nat)
    requires i < |ms|
    ensures Disjunction(ms[..i + 1]) == Disjunction(ms[..i]) + (if i > 0 then [Or] else []) + MembershipTerm(ms[i])
  {
    assert ms[..i + 1][..i] == ms[..i];
  }

  lemma AppendFive(s: seq<Token>, a: Token, b: Token, c: Token, d: Token, e: Token)
    ensures s + [a] + [b] + [c] + [d] + [e] == s + [a, b, c, d, e]
  {
  }

  lemma Reassociate(p: seq<Token>, d: seq<Token>, sep: seq<Token>, t: seq<Token>)
    ensures p + d + sep + t == p + (d + sep + t)
  {
  }

  /** The builder code of lines 165-194, with its `isFirst` flag. */
  method BuildMembershipSearch(ms: seq<Membership>) returns (options: SearchOptions)
    ensures options == SearchOptions(0, MaxInteger, MembershipFilters(ms))
  {
    var filters: seq<Token> := [];
    filters := filters + [EnabledIs(true)];
    filters := filters + [And];
    filters := filters + [LeftParen];
    var isFirst := true;
    for i := 0 to |ms|
      invariant isFirst <==> i == 0
      invariant filters == [EnabledIs(true), And, LeftParen] + Disjunction(ms[..i])
    {
      DisjunctionStep(ms, i);
      ghost var separator: seq<Token> := if isFirst then [] else [Or];
      ghost var beforeOr := filters;
      var groupId := ms[i].groupId;
      var roleId := ms[i].roleId;
      if !isFirst {
        filters := filters + [Or];
      }
      ghost var beforeTerm := filters;
      if groupId.Some? && roleId.Some? {
        filters := filters + [LeftParen];
        filters := filters + [GroupIs(groupId.value)];
        filters := filters + [And];
        filters := filters + [RoleIs(roleId.value)];
        filters := filters + [RightParen];
        AppendFive(beforeTerm, LeftParen, GroupIs(groupId.value), And, RoleIs(roleId.value), RightParen);
      } else if groupId.Some? {
        filters := filters + [GroupIs(groupId.value)];
      } else if roleId.Some? {
        filters := filters + [RoleIs(roleId.value)];
      } else {
        assert filters == beforeTerm + [];
      }
      assert beforeTerm == beforeOr + separator;
      Reassociate([EnabledIs(true), And, LeftParen], Disjunction(ms[..i]), separator, MembershipTerm(ms[i]));
      isFirst := false;
    }
    assert ms[..|ms|] == ms;
    filters := filters + [RightParen];
    options := SearchOptions(0, MaxInteger, filters);
  }

  // ---------------------------------------------------------------------------
  // One `or()` between consecutive memberships
  // ---------------------------------------------------------------------------

  function CountOf(ts: seq<Token>, t: Token): nat
  {
    if ts == [] then 0 else CountOf(ts[..|ts| - 1], t) + (if ts[|ts| - 1] == t then 1 else 0)
  }

  lemma {:induction false} CountOfConcat(a: seq<Token>, b: seq<Token>, t: Token)
    ensures CountOf(a + b, t) == CountOf(a, t) + CountOf(b, t)
    decreases |b|
  {
    if b != [] {
      assert (a + b)[..|a + b| - 1] == a + b[..|b| - 1];
      CountOfConcat(a, b[..|b| - 1], t);
    } else {
      assert a + b == a;
    }
  }

  lemma {:induction false} NoCountWithout(ts: seq<Token>, t: Token)
    requires t !in ts
    ensures CountOf(ts, t) == 0
    decreases |ts|
  {
    if ts != [] {
      assert forall k :: 0 <= k < |ts| - 1 ==> ts[..|ts| - 1][k] == ts[k];
      NoCountWithout(ts[..|ts| - 1], t);
    }
  }

  lemma {:induction false} OrCountOfDisjunction(ms: seq<Membership>)
    ensures CountOf(Disjunction(ms), Or) == if ms == [] then 0 else |ms| - 1
    decreases |ms|
  {
    if ms != [] {
      var init := ms[..|ms| - 1];
      var sep: seq<Token> := if |ms| > 1 then [Or] else [];
      var term := MembershipTerm(ms[|ms| - 1]);
      OrCountOfDisjunction(init);
      CountOfConcat(Disjunction(init), sep, Or);
      CountOfConcat(Disjunction(init) + sep, term, Or);
      NoCountWithout(term, Or);
    }
  }

  /** Exactly |memberships| - 1 `or()` calls, whether or not a membership has an id. */
  lemma OrCount(ms: seq<Membership>)
    requires ms != []
    ensures CountOf(MembershipFilters(ms), Or) == |ms| - 1
  {
    var head: seq<Token> := [EnabledIs(true), And, LeftParen];
    OrCountOfDisjunction(ms);
    CountOfConcat(head, Disjunction(ms), Or);
    CountOfConcat(head + Disjunction(ms), [RightParen], Or);
    NoCountWithout(head, Or);
  }

  // ---------------------------------------------------------------------------
  // Balanced parentheses
  // ---------------------------------------------------------------------------

  function Nesting(t: Token): int
  {
    if t == LeftParen then 1 else if t == RightParen then -1 else 0
  }

  /** The parenthesis depth after reading `ts` from depth `d`; `None` once a `)` has
      no matching `(`. */
  function Walk(ts: seq<Token>, d: int): Option<int>
  {
    if ts == [] then Some(d)
    else if d + Nesting(ts[0]) < 0 then None
    else Walk(ts[1..], d + Nesting(ts[0]))
  }

  predicate Balanced(ts: seq<Token>)
  {
    Walk(ts, 0) == Some(0)
  }

  lemma {:induction false} WalkConcat(a: seq<Token>, b: seq<Token>, d: int)
    ensures Walk(a + b, d) == match Walk(a, d) case None => None case Some(e) => Walk(b, e)
    decreases |a|
  {
    if a == [] {
      assert a + b == b;
    } else {
      assert (a + b)[1..] == a[1..] + b;
      WalkConcat(a[1..], b, d + Nesting(a[0]));
    }
  }

  lemma TermWalk(m: Membership, d: int)
    requires d >= 0
    ensures Walk(MembershipTerm(m), d) == Some(d)
  {
    var term := MembershipTerm(m);
    if m.groupId.Some? && m.roleId.Some? {
      var g, r := GroupIs(m.groupId.value), RoleIs(m.roleId.value);
      assert Walk([RightParen], d + 1) == Some(d);
      assert [r, RightParen][1..] == [RightParen];
      assert Walk([r, RightParen], d + 1) == Some(d);
      assert [And, r, RightParen][1..] == [r, RightParen];
      assert Walk([And, r, RightParen], d + 1) == Some(d);
      assert [g, And, r, RightParen][1..] == [And, r, RightParen];
      assert Walk([g, And, r, RightParen], d + 1) == Some(d);
      assert term[1..] == [g, And, r, RightParen];
    } else if m.groupId.Some? || m.roleId.Some? {
      assert term[1..] == [];
    }
  }

  lemma {:induction false} DisjunctionWalk(ms: seq<Membership>, d: int)
    requires d >= 0
    ensures Walk(Disjunction(ms), d) == Some(d)
    decreases |ms|
  {
    if ms != [] {
      var init := ms[..|ms| - 1];
      var sep: seq<Token> := if |ms| > 1 then [Or] else [];
      var term := MembershipTerm(ms[|ms| - 1]);
      DisjunctionWalk(init, d);
      TermWalk(ms[|ms| - 1], d);
      WalkConcat(Disjunction(init), sep, d);
      WalkConcat(Disjunction(init) + sep, term, d);
    }
  }

  /** Every `(` the builder opens is closed, and no `)` comes before its `(`. */
  lemma FiltersBalanced(ms: seq<Membership>)
    ensures Balanced(MembershipFilters(ms))
  {
    var head: seq<Token> := [EnabledIs(true), And, LeftParen];
    assert Walk(head, 0) == Some(1);
    DisjunctionWalk(ms, 1);
    WalkConcat(head, Disjunction(ms), 0);
    WalkConcat(head + Disjunction(ms), [RightParen], 0);
  }

  // ---------------------------------------------------------------------------
  // The ids the query mentions
  // ---------------------------------------------------------------------------

  predicate HasGroup(ms: seq<Membership>, g: Int64)
  {
    exists i :: 0 <= i < |ms| && ms[i].groupId == Some(g)
  }

  predicate HasRole(ms: seq<Membership>, r: Int64)
  {
    exists i :: 0 <= i < |ms| && ms[i].roleId == Some(r)
  }

  lemma HasGroupSnoc(ms: seq<Membership>, g: Int64)
    requires ms != []
    ensures HasGroup(ms, g) <==> HasGroup(ms[..|ms| - 1], g) || ms[|ms| - 1].groupId == Some(g)
  {
    var init := ms[..|ms| - 1];
    if HasGroup(ms, g) {
      var i :| 0 <= i < |ms| && ms[i].groupId == Some(g);
      if i < |ms| - 1 { assert init[i] == ms[i]; }
    }
    if HasGroup(init, g) {
      var i :| 0 <= i < |init| && init[i].groupId == Some(g);
      assert ms[i] == init[i];
    }
  }

  lemma HasRoleSnoc(ms: seq<Membership>, r: Int64)
    requires ms != []
    ensures HasRole(ms, r) <==> HasRole(ms[..|ms| - 1], r) || ms[|ms| - 1].roleId == Some(r)
  {
    var init := ms[..|ms| - 1];
    if HasRole(ms, r) {
      var i :| 0 <= i < |ms| && ms[i].roleId == Some(r);
      if i < |ms| - 1 { assert init[i] == ms[i]; }
    }
    if HasRole(init, r) {
      var i :| 0 <= i < |init| && init[i].roleId == Some(r);
      assert ms[i] == init[i];
    }
  }

  lemma {:induction false} DisjunctionMentionsGroup(ms: seq<Membership>, g: Int64)
    ensures GroupIs(g) in Disjunction(ms) <==> HasGroup(ms, g)
    decreases |ms|
  {
    if ms != [] {
      var init := ms[..|ms| - 1];
      var sep: seq<Token> := if |ms| > 1 then [Or] else [];
      var term := MembershipTerm(ms[|ms| - 1]);
      DisjunctionMentionsGroup(init, g);
      HasGroupSnoc(ms, g);
      assert Disjunction(ms) == Disjunction(init) + sep + term;
      assert GroupIs(g) in term <==> ms[|ms| - 1].groupId == Some(g);
    }
  }

  lemma {:induction false} DisjunctionMentionsRole(ms: seq<Membership>, r: Int64)
    ensures RoleIs(r) in Disjunction(ms) <==> HasRole(ms, r)
    decreases |ms|
  {
    if ms != [] {
      var init := ms[..|ms| - 1];
      var sep: seq<Token> := if |ms| > 1 then [Or] else [];
      var term := MembershipTerm(ms[|ms| - 1]);
      DisjunctionMentionsRole(init, r);
      HasRoleSnoc(ms, r);
      assert Disjunction(ms) == Disjunction(init) + sep + term;
      assert RoleIs(r) in term <==> ms[|ms| - 1].roleId == Some(r);
    }
  }

  /** The search asks for exactly the group and role ids the memberships carry. */
  lemma FiltersMentionMembershipIds(ms: seq<Membership>)
    ensures forall g :: GroupIs(g) in MembershipFilters(ms) <==> HasGroup(ms, g)
    ensures forall r :: RoleIs(r) in MembershipFilters(ms) <==> HasRole(ms, r)
  {
    forall g: Int64 ensures GroupIs(g) in MembershipFilters(ms) <==> HasGroup(ms, g) {
      DisjunctionMentionsGroup(ms, g);
    }
    forall r: Int64 ensures RoleIs(r) in MembershipFilters(ms) <==> HasRole(ms, r) {
      DisjunctionMentionsRole(ms, r);
    }
  }

  // ---------------------------------------------------------------------------
  // Empty operands: what `or()` does for a membership with neither id
  // ---------------------------------------------------------------------------

  /** Tokens after which an operand must follow. */
  predicate OpensOperand(t: Token) { t == LeftParen || t == Or || t == And }

  /** Tokens before which an operand must stand. */
  predicate ClosesOperand(t: Token) { t == RightParen || t == Or || t == And }

  /** Between positions `i` and `i + 1` an operand is missing, as in `( )`, `( or`,
      `or or` or `or )`. */
  predicate EmptyOperandAt(ts: seq<Token>, i: int)
  {
    0 <= i && i + 1 < |ts| && OpensOperand(ts[i]) && ClosesOperand(ts[i + 1])
  }

  predicate HasEmptyOperand(ts: seq<Token>)
  {
    exists i | 0 <= i < |ts| :: EmptyOperandAt(ts, i)
  }

  predicate HasNoIds(m: Membership)
  {
    m.groupId.None? && m.roleId.None?
  }

  lemma EmptyOperandConcat(a: seq<Token>, b: seq<Token>)
    ensures HasEmptyOperand(a + b) <==>
      || HasEmptyOperand(a)
      || HasEmptyOperand(b)
      || (a != [] && b != [] && OpensOperand(a[|a| - 1]) && ClosesOperand(b[0]))
  {
    var ab := a + b;
    if HasEmptyOperand(ab) {
      var i :| 0 <= i < |ab| && EmptyOperandAt(ab, i);
      if i + 1 < |a| {
        assert EmptyOperandAt(a, i);
      } else if i >= |a| {
        assert EmptyOperandAt(b, i - |a|);
      }
    }
    if HasEmptyOperand(a) {
      var i :| 0 <= i < |a| && EmptyOperandAt(a, i);
      assert EmptyOperandAt(ab, i);
    }
    if HasEmptyOperand(b) {
      var i :| 0 <= i < |b| && EmptyOperandAt(b, i);
      assert EmptyOperandAt(ab, i + |a|);
    }
    if a != [] && b != [] && OpensOperand(a[|a| - 1]) && ClosesOperand(b[0]) {
      assert EmptyOperandAt(ab, |a| - 1);
    }
  }

  lemma TermShape(m: Membership)
    requires !HasNoIds(m)
    ensures var term := MembershipTerm(m);
      term != [] && !ClosesOperand(term[0]) && !OpensOperand(term[|term| - 1]) && !HasEmptyOperand(term)
  {
    var term := MembershipTerm(m);
    forall i | 0 <= i < |term| ensures !EmptyOperandAt(term, i) {
    }
  }

  /** When every membership has an id, the disjunction starts and ends with an operand
      and has none missing inside. */
  lemma {:induction false} DisjunctionWithIds(ms: seq<Membership>)
    requires ms != []
    requires forall i :: 0 <= i < |ms| ==> !HasNoIds(ms[i])
    ensures var ts := Disjunction(ms);
      ts != [] && !ClosesOperand(ts[0]) && !OpensOperand(ts[|ts| - 1]) && !HasEmptyOperand(ts)
    decreases |ms|
  {
    var last := ms[|ms| - 1];
    TermShape(last);
    if |ms| > 1 {
      var init := ms[..|ms| - 1];
      DisjunctionWithIds(init);
      var d := Disjunction(init);
      EmptyOperandConcat(d, [Or]);
      EmptyOperandConcat(d + [Or], MembershipTerm(last));
    } else {
      assert Disjunction(ms) == [] + [] + MembershipTerm(last);
    }
  }

  /** `or()` followed by the term of each membership in turn. */
  function OrTerms(ms: seq<Membership>): seq<Token>
    decreases |ms|
  {
    if ms == [] then [] else OrTerms(ms[..|ms| - 1]) + [Or] + MembershipTerm(ms[|ms| - 1])
  }

  lemma {:induction false} OrTermsStartWithOr(ms: seq<Membership>)
    requires ms != []
    ensures OrTerms(ms) != [] && OrTerms(ms)[0] == Or
    decreases |ms|
  {
    if |ms| > 1 {
      OrTermsStartWithOr(ms[..|ms| - 1]);
    }
  }

  /** The disjunction of `ms` continues that of any non-empty prefix with `or()`s. */
  lemma {:induction false} DisjunctionSplit(ms: seq<Membership>, j: nat)
    requires 0 < j <= |ms|
    ensures Disjunction(ms) == Disjunction(ms[..j]) + OrTerms(ms[j..])
    decreases |ms|
  {
    if j == |ms| {
      assert ms[..j] == ms;
      assert ms[j..] == [];
    } else {
      var init := ms[..|ms| - 1];
      var term := MembershipTerm(ms[|ms| - 1]);
      var suffix := ms[j..];
      DisjunctionSplit(init, j);
      assert init[..j] == ms[..j];
      assert suffix[..|suffix| - 1] == init[j..];
      assert suffix[|suffix| - 1] == ms[|ms| - 1];
      var p, o := Disjunction(ms[..j]), OrTerms(init[j..]);
      assert Disjunction(ms) == p + o + [Or] + term;
      assert OrTerms(suffix) == o + [Or] + term;
      Reassociate(p, o, [Or], term);
    }
  }

  lemma DisjunctionUpToIdless(ms: seq<Membership>, k: nat)
    requires k < |ms| && HasNoIds(ms[k])
    ensures Disjunction(ms[..k + 1]) == if k == 0 then [] else Disjunction(ms[..k]) + [Or]
  {
    var pre := ms[..k + 1];
    assert pre[..|pre| - 1] == ms[..k];
    assert pre[|pre| - 1] == ms[k];
    assert MembershipTerm(ms[k]) == [];
  }

  lemma IdlessMembershipLeavesEmptyOperand(ms: seq<Membership>, k: nat)
    requires k < |ms| && HasNoIds(ms[k])
    ensures HasEmptyOperand(MembershipFilters(ms))
  {
    var head: seq<Token> := [EnabledIs(true), And, LeftParen];
    var upto := Disjunction(ms[..k + 1]);
    // what follows `upto`: `or()` if memberships remain, the closing `)` otherwise
    var rest := OrTerms(ms[k + 1..]) + [RightParen];
    DisjunctionSplit(ms, k + 1);
    if k + 1 < |ms| {
      OrTermsStartWithOr(ms[k + 1..]);
    }
    var before := head + upto;
    assert MembershipFilters(ms) == before + rest;
    DisjunctionUpToIdless(ms, k);
    assert OpensOperand(before[|before| - 1]) by {
      if k > 0 {
        assert before == head + Disjunction(ms[..k]) + [Or];
      }
    }
    EmptyOperandConcat(before, rest);
  }

  lemma MembershipsWithIdsLeaveNoEmptyOperand(ms: seq<Membership>)
    requires ms != []
    requires forall i :: 0 <= i < |ms| ==> !HasNoIds(ms[i])
    ensures !HasEmptyOperand(MembershipFilters(ms))
  {
    var head: seq<Token> := [EnabledIs(true), And, LeftParen];
    DisjunctionWithIds(ms);
    var d := Disjunction(ms);
    forall i | 0 <= i < |head| ensures !EmptyOperandAt(head, i) {
    }
    EmptyOperandConcat(head, d);
    EmptyOperandConcat(head + d, [RightParen]);
  }

  /** The query has an empty operand exactly when some membership carries neither a
      group id nor a role id: `or()` is emitted for it all the same and nothing follows. */
  lemma EmptyOperandIffMembershipWithoutIds(ms: seq<Membership>)
    requires ms != []
    ensures HasEmptyOperand(MembershipFilters(ms)) <==> exists k :: 0 <= k < |ms| && HasNoIds(ms[k])
  {
    if exists k :: 0 <= k < |ms| && HasNoIds(ms[k]) {
      var k :| 0 <= k < |ms| && HasNoIds(ms[k]);
      IdlessMembershipLeavesEmptyOperand(ms, k);
    } else {
      MembershipsWithIdsLeaveNoEmptyOperand(ms);
    }
  }
}
