/** The iptables reconciler: `ApplyIptablesRules` brings the nat and filter tables to the rules the
    access points and uplinks need, by checking, deleting and appending single rules. A table is the
    sequence of its rules, each starting with the name of its chain. */
module Firewall {
  import opened Ordering

  type Rule = seq<string>
  type Table = seq<Rule>

  // ---------------------------------------------------------------- the rules

  function Stale(ap: string): seq<Rule> {
    [["PREROUTING", "-i", ap, "-p", "tcp", "--dport", "80", "-j", "DNAT", "--to-destination", "192.168.4.1:80"],
     ["PREROUTING", "-i", ap, "-p", "tcp", "--dport", "80", "-j", "REDIRECT", "--to-port", "80"],
     ["PREROUTING", "-i", ap, "-p", "tcp", "--dport", "80", "-j", "REDIRECT", "--to-port", "18080"]]
  }

  function Redirect(ap: string, port: string): Rule {
    ["PREROUTING", "-i", ap, "-p", "tcp", "--dport", port, "-j", "REDIRECT", "--to-port", "3128"]
  }

  function Masquerade(up: string): Rule { ["POSTROUTING", "-o", up, "-j", "MASQUERADE"] }

  function SubnetMasquerade(up: string): Rule { ["POSTROUTING", "-s", "192.168.4.0/24", "-o", up, "-j", "MASQUERADE"] }

  function ForwardOut(ap: string, up: string): Rule { ["FORWARD", "-i", ap, "-o", up, "-j", "ACCEPT"] }

  function ForwardBack(up: string, ap: string): Rule {
    ["FORWARD", "-i", up, "-o", ap, "-m", "state", "--state", "RELATED,ESTABLISHED", "-j", "ACCEPT"]
  }

  /** The chains the reconciler flushes. */
  predicate OwnChain(r: Rule) { r != [] && (r[0] == "LC_INTERNET" || r[0] == "LC_PROXY_REDIRECT") }

  /** The interfaces of a role as stored, or the default one. */
  function Interfaces(stored: seq<string>, fallback: string): (ifaces: seq<string>)
    ensures ifaces != []
  {
    if stored == [] then [fallback] else stored
  }

  // ---------------------------------------------------------------- edits

  /** Deleting a rule wherever it occurs, or doing so and then appending it. */
  datatype Edit = Del(rule: Rule) | Put(rule: Rule)

  function IsNot(rule: Rule): Rule -> bool { (r: Rule) => r != rule }

  function Edited(t: Table, e: Edit): Table {
    Filter(IsNot(e.rule), t) + if e.Put? then [e.rule] else []
  }

  function AllEdited(t: Table, es: seq<Edit>): Table {
    if es == [] then t else Edited(AllEdited(t, es[..|es| - 1]), es[|es| - 1])
  }

  function Flushed(t: Table): Table { Filter(NotOwnChain(), t) }

  function NotOwnChain(): Rule -> bool { (r: Rule) => !OwnChain(r) }

  function ApEdits(ap: string): seq<Edit> {
    [Del(Stale(ap)[0]), Del(Stale(ap)[1]), Del(Stale(ap)[2]), Put(Redirect(ap, "80")), Put(Redirect(ap, "443"))]
  }

  function RedirectEdits(aps: seq<string>): seq<Edit> {
    if aps == [] then [] else RedirectEdits(aps[..|aps| - 1]) + ApEdits(aps[|aps| - 1])
  }

  function MasqueradeEdits(ups: seq<string>): seq<Edit> {
    if ups == [] then [] else MasqueradeEdits(ups[..|ups| - 1]) + [Put(Masquerade(ups[|ups| - 1]))]
  }

  function NatEdits(aps: seq<string>, ups: seq<string>): seq<Edit> { RedirectEdits(aps) + MasqueradeEdits(ups) }

  function PairEdits(ap: string, up: string): seq<Edit> { [Put(ForwardOut(ap, up)), Put(ForwardBack(up, ap))] }

  /** The forward rules of one uplink, for every access point. */
  function UplinkEdits(aps: seq<string>, up: string): seq<Edit> {
    if aps == [] then [] else UplinkEdits(aps[..|aps| - 1], up) + PairEdits(aps[|aps| - 1], up)
  }

  function ForwardEdits(aps: seq<string>, ups: seq<string>): seq<Edit> {
    if ups == [] then [] else ForwardEdits(aps, ups[..|ups| - 1]) + UplinkEdits(aps, ups[|ups| - 1])
  }

  /** What the routing set-up appends without looking, when the uplink has an address. */
  function RoutedNat(t: Table, ups: seq<string>, hasAddress: bool): Table
    requires ups != []
  {
    if hasAddress then t + [SubnetMasquerade(ups[0])] else t
  }

  function RoutedForward(t: Table, aps: seq<string>, ups: seq<string>, hasAddress: bool): Table
    requires aps != [] && ups != []
  {
    if hasAddress then t + [ForwardOut(aps[0], ups[0])] + [ForwardBack(ups[0], aps[0])] else t
  }

  function AppliedNat(t: Table, aps: seq<string>, ups: seq<string>, hasAddress: bool): Table
    requires ups != []
  {
    AllEdited(Flushed(RoutedNat(t, ups, hasAddress)), NatEdits(aps, ups))
  }

  function AppliedForward(t: Table, aps: seq<string>, ups: seq<string>, hasAddress: bool): Table
    requires aps != [] && ups != []
  {
    AllEdited(RoutedForward(t, aps, ups, hasAddress), ForwardEdits(aps, ups))
  }

  function RemoveFirst(t: Table, rule: Rule): Table
    requires rule in t
  {
    if t[0] == rule then t[1..] else [t[0]] + RemoveFirst(t[1..], rule)
  }

  lemma {:induction false} RemoveFirstLeavesOthers(t: Table, rule: Rule)
    requires rule in t
    ensures Filter(IsNot(rule), RemoveFirst(t, rule)) == Filter(IsNot(rule), t) && |RemoveFirst(t, rule)| == |t| - 1
  {
    if t[0] != rule {
      RemoveFirstLeavesOthers(t[1..], rule);
      assert ([t[0]] + RemoveFirst(t[1..], rule))[1..] == RemoveFirst(t[1..], rule);
    }
  }

  class NetworkService {
    var natTable: Table
    var forwardTable: Table

    constructor (natTable: Table, forwardTable: Table)
      ensures this.natTable == natTable && this.forwardTable == forwardTable
    {
      this.natTable, this.forwardTable := natTable, forwardTable;
    }

    /** Deletes while the rule is still found: as many times as it occurs. */
    method DeleteNatRule(rule: Rule)
      modifies this`natTable
      ensures natTable == Edited(old(natTable), Del(rule))
    {
      while rule in natTable
        invariant Filter(IsNot(rule), natTable) == Filter(IsNot(rule), old(natTable))
        decreases |natTable|
      {
        RemoveFirstLeavesOthers(natTable, rule);
        natTable := RemoveFirst(natTable, rule);
      }
      FilterAll(IsNot(rule), natTable);
    }

    method EnsureNatRule(rule: Rule)
      modifies this`natTable
      ensures natTable == old(natTable) + if rule in old(natTable) then [] else [rule]
    {
      if rule !in natTable { natTable := natTable + [rule]; }
    }

    method DeleteForwardRule(rule: Rule)
      modifies this`forwardTable
      ensures forwardTable == Edited(old(forwardTable), Del(rule))
    {
      while rule in forwardTable
        invariant Filter(IsNot(rule), forwardTable) == Filter(IsNot(rule), old(forwardTable))
        decreases |forwardTable|
      {
        RemoveFirstLeavesOthers(forwardTable, rule);
        forwardTable := RemoveFirst(forwardTable, rule);
      }
      FilterAll(IsNot(rule), forwardTable);
    }

    method EnsureForwardRule(rule: Rule)
      modifies this`forwardTable
      ensures forwardTable == old(forwardTable) + if rule in old(forwardTable) then [] else [rule]
    {
      if rule !in forwardTable { forwardTable := forwardTable + [rule]; }
    }

    method ResetNatRule(rule: Rule)
      modifies this`natTable
      ensures natTable == Edited(old(natTable), Put(rule))
    {
      DeleteNatRule(rule);
      FilterMembers(IsNot(rule), old(natTable));
      EnsureNatRule(rule);
    }

    method ResetForwardRule(rule: Rule)
      modifies this`forwardTable
      ensures forwardTable == Edited(old(forwardTable), Put(rule))
    {
      DeleteForwardRule(rule);
      FilterMembers(IsNot(rule), old(forwardTable));
      EnsureForwardRule(rule);
    }

    /** The checks before the appends are made, but their answers are not used. */
    method EnsureUplinkRouting(ap: string, up: string, hasAddress: bool) returns (routed: bool)
      modifies this
      ensures natTable == RoutedNat(old(natTable), [up], hasAddress)
      ensures forwardTable == RoutedForward(old(forwardTable), [ap], [up], hasAddress)
      ensures routed == hasAddress
    {
      if !hasAddress { return false; }
      var unusedCheck := SubnetMasquerade(up) in natTable;
      natTable := natTable + [SubnetMasquerade(up)];
      forwardTable := forwardTable + [ForwardOut(ap, up)];
      forwardTable := forwardTable + [ForwardBack(up, ap)];
      return true;
    }

    /** The body of the loop over access points. */
    method ResetApRules(ap: string)
      modifies this`natTable
      ensures natTable == AllEdited(old(natTable), ApEdits(ap))
    {
      ghost var es := ApEdits(ap);
      var stale, ports := Stale(ap), ["80", "443"];
      for k := 0 to 3
        invariant natTable == AllEdited(old(natTable), es[..k])
      {
        DeleteNatRule(stale[k]);
        assert es[..k + 1] == es[..k] + [Del(stale[k])];
        EditAppended(old(natTable), es[..k], Del(stale[k]));
      }
      for k := 0 to 2
        invariant natTable == AllEdited(old(natTable), es[..3 + k])
      {
        ResetNatRule(Redirect(ap, ports[k]));
        assert es[..4 + k] == es[..3 + k] + [Put(Redirect(ap, ports[k]))];
        EditAppended(old(natTable), es[..3 + k], Put(Redirect(ap, ports[k])));
      }
      assert es[..5] == es;
    }

    /** The inner loop over access points, for one uplink. */
    method ResetUplinkRules(aps: seq<string>, up: string)
      modifies this`forwardTable
      ensures forwardTable == AllEdited(old(forwardTable), UplinkEdits(aps, up))
    {
      for i := 0 to |aps|
        invariant forwardTable == AllEdited(old(forwardTable), UplinkEdits(aps[..i], up))
      {
        ghost var es := UplinkEdits(aps[..i], up);
        ResetForwardRule(ForwardOut(aps[i], up));
        ResetForwardRule(ForwardBack(up, aps[i]));
        assert aps[..i + 1][..i] == aps[..i];
        EditsJoined(old(forwardTable), es, PairEdits(aps[i], up));
        TwoEdits(AllEdited(old(forwardTable), es), Put(ForwardOut(aps[i], up)), Put(ForwardBack(up, aps[i])));
      }
      assert aps[..|aps|] == aps;
    }

    method ApplyIptablesRules(storedAps: seq<string>, storedUps: seq<string>, hasAddress: bool)
      modifies this
      ensures var aps, ups := Interfaces(storedAps, "wlan0"), Interfaces(storedUps, "wlan1");
              && natTable == AppliedNat(old(natTable), aps, ups, hasAddress)
              && forwardTable == AppliedForward(old(forwardTable), aps, ups, hasAddress)
    {
      var aps, ups := Interfaces(storedAps, "wlan0"), Interfaces(storedUps, "wlan1");
      var routed := EnsureUplinkRouting(aps[0], ups[0], hasAddress);
      natTable := Flushed(natTable);
      EditsJoined(natTable, RedirectEdits(aps), MasqueradeEdits(ups));
      ResetAllAps(aps);
      ResetAllUplinks(aps, ups);
    }

    method ResetAllAps(aps: seq<string>)
      modifies this`natTable
      ensures natTable == AllEdited(old(natTable), RedirectEdits(aps))
    {
      for i := 0 to |aps|
        invariant natTable == AllEdited(old(natTable), RedirectEdits(aps[..i]))
      {
        ResetApRules(aps[i]);
        assert aps[..i + 1][..i] == aps[..i];
        EditsJoined(old(natTable), RedirectEdits(aps[..i]), ApEdits(aps[i]));
      }
      assert aps[..|aps|] == aps;
    }

    method ResetAllUplinks(aps: seq<string>, ups: seq<string>)
      modifies this
      ensures AllEdited(old(natTable), MasqueradeEdits(ups)) == natTable
      ensures forwardTable == AllEdited(old(forwardTable), ForwardEdits(aps, ups))
    {
      for j := 0 to |ups|
        invariant natTable == AllEdited(old(natTable), MasqueradeEdits(ups[..j]))
        invariant forwardTable == AllEdited(old(forwardTable), ForwardEdits(aps, ups[..j]))
      {
        ResetNatRule(Masquerade(ups[j]));
        ResetUplinkRules(aps, ups[j]);
        assert ups[..j + 1][..j] == ups[..j];
        EditAppended(old(natTable), MasqueradeEdits(ups[..j]), Put(Masquerade(ups[j])));
        EditsJoined(old(forwardTable), ForwardEdits(aps, ups[..j]), UplinkEdits(aps, ups[j]));
      }
      assert ups[..|ups|] == ups;
    }
  }

  lemma {:induction false} EditsJoined(t: Table, a: seq<Edit>, b: seq<Edit>)
    ensures AllEdited(t, a + b) == AllEdited(AllEdited(t, a), b)
  {
    if b == [] {
      assert a + b == a;
    } else {
      assert (a + b)[..|a + b| - 1] == a + b[..|b| - 1];
      EditsJoined(t, a, b[..|b| - 1]);
    }
  }

  lemma TwoEdits(t: Table, a: Edit, b: Edit)
    ensures AllEdited(t, [a, b]) == Edited(Edited(t, a), b)
  {
    EditAppended(t, [], a);
    EditAppended(t, [a], b);
    assert [] + [a] == [a] && [a] + [b] == [a, b];
  }

  lemma EditAppended(t: Table, es: seq<Edit>, e: Edit)
    ensures AllEdited(t, es + [e]) == Edited(AllEdited(t, es), e)
  {
    assert (es + [e])[..|es|] == es;
  }

  // ---------------------------------------------------------------- what a run leaves

  predicate Distinct<T(==)>(s: seq<T>) { forall i, j :: 0 <= i < j < |s| ==> s[i] != s[j] }

  /** The rules appended by these edits, in order. */
  function Puts(es: seq<Edit>): seq<Rule> {
    if es == [] then [] else
      Puts(es[..|es| - 1]) + if es[|es| - 1].Put? then [es[|es| - 1].rule] else []
  }

  function Untouched(es: seq<Edit>): Rule -> bool {
    (r: Rule) => forall i :: 0 <= i < |es| ==> es[i].rule != r
  }

  /** No rule is put twice, and none is put before it is deleted for good. */
  ghost predicate Clean(es: seq<Edit>) {
    forall i, j :: 0 <= i < j < |es| && es[i].Put? ==> es[i].rule != es[j].rule
  }

  lemma {:induction false} FilterBoth<T(!new)>(p: T -> bool, q: T -> bool, both: T -> bool, s: seq<T>)
    requires forall x :: both(x) <==> p(x) && q(x)
    ensures Filter(q, Filter(p, s)) == Filter(both, s)
  {
    if s != [] {
      FilterBoth(p, q, both, s[1..]);
      FilterConcat(q, if p(s[0]) then [s[0]] else [], Filter(p, s[1..]));
    }
  }

  lemma {:induction false} PutsMembers(es: seq<Edit>)
    ensures forall r :: r in Puts(es) <==> Put(r) in es
  {
    if es != [] {
      PutsMembers(es[..|es| - 1]);
      assert es == es[..|es| - 1] + [es[|es| - 1]];
    }
  }

  /** One more edit on a table in normal form. */
  lemma EditNormal(t: Table, es: seq<Edit>, puts: seq<Rule>, e: Edit)
    requires e.rule !in puts
    ensures Edited(Filter(Untouched(es), t) + puts, e)
         == Filter(Untouched(es + [e]), t) + puts + if e.Put? then [e.rule] else []
  {
    FilterConcat(IsNot(e.rule), Filter(Untouched(es), t), puts);
    forall r ensures Untouched(es + [e])(r) <==> Untouched(es)(r) && IsNot(e.rule)(r) {
      UntouchedAppend(es, e, r);
    }
    FilterBoth(Untouched(es), IsNot(e.rule), Untouched(es + [e]), t);
    FilterAll(IsNot(e.rule), puts);
  }

  lemma UntouchedAppend(es: seq<Edit>, e: Edit, r: Rule)
    ensures Untouched(es + [e])(r) <==> Untouched(es)(r) && r != e.rule
  {
    assert forall i :: 0 <= i < |es| ==> (es + [e])[i] == es[i];
    assert (es + [e])[|es|] == e;
  }

  /** The normal form: the rules no edit mentions, in their old order, and then the rules put, in order. */
  lemma {:induction false} EditsNormalForm(t: Table, es: seq<Edit>)
    requires Clean(es)
    ensures AllEdited(t, es) == Filter(Untouched(es), t) + Puts(es)
  {
    if es == [] {
      FilterAll(Untouched(es), t);
    } else {
      var init, e := es[..|es| - 1], es[|es| - 1];
      EditsNormalForm(t, init);
      PutsMembers(init);
      assert e.rule !in Puts(init) by {
        forall i | 0 <= i < |init| && init[i].Put? ensures init[i].rule != e.rule { assert es[i] == init[i]; }
      }
      EditNormal(t, init, Puts(init), e);
      assert init + [e] == es;
    }
  }

  lemma CleanJoined(a: seq<Edit>, b: seq<Edit>)
    requires Clean(a) && Clean(b) && forall i, j :: 0 <= i < |a| && 0 <= j < |b| && a[i].Put? ==> a[i].rule != b[j].rule
    ensures Clean(a + b)
  {
  }

  // ---------------------------------------------------------------- which rules the edits concern

  lemma ApEditsShape(ap: string)
    ensures Clean(ApEdits(ap)) && forall e :: e in ApEdits(ap) ==> |e.rule| == 11 && e.rule[2] == ap
  {
  }

  /** Each edit names its access point, and all edits of each access point are there. */
  lemma {:induction false} RedirectEditsFor(aps: seq<string>)
    ensures forall e :: e in RedirectEdits(aps) ==> |e.rule| == 11 && e.rule[2] in aps && e in ApEdits(e.rule[2])
    ensures forall ap, e :: ap in aps && e in ApEdits(ap) ==> e in RedirectEdits(aps)
  {
    if aps != [] {
      RedirectEditsFor(aps[..|aps| - 1]);
      ApEditsShape(aps[|aps| - 1]);
    }
  }

  lemma {:induction false} RedirectEditsClean(aps: seq<string>)
    requires Distinct(aps)
    ensures Clean(RedirectEdits(aps))
  {
    if aps != [] {
      var init, ap := aps[..|aps| - 1], aps[|aps| - 1];
      var a, b := RedirectEdits(init), ApEdits(ap);
      RedirectEditsClean(init);
      RedirectEditsFor(init);
      ApEditsShape(ap);
      assert ap !in init;
      forall i, j | 0 <= i < |a| && 0 <= j < |b| ensures a[i].rule != b[j].rule {
        assert a[i] in a && b[j] in b;
        assert a[i].rule[2] in init && b[j].rule[2] == ap;
      }
      CleanJoined(a, b);
    }
  }

  lemma {:induction false} MasqueradeEditsFor(ups: seq<string>)
    ensures forall e :: e in MasqueradeEdits(ups) <==> exists up :: up in ups && e == Put(Masquerade(up))
    ensures Distinct(ups) ==> Clean(MasqueradeEdits(ups))
  {
    if ups != [] {
      var init, up := ups[..|ups| - 1], ups[|ups| - 1];
      MasqueradeEditsFor(init);
      if Distinct(ups) {
        forall i | 0 <= i < |MasqueradeEdits(init)| ensures MasqueradeEdits(init)[i].rule != Masquerade(up) {
          assert MasqueradeEdits(init)[i] in MasqueradeEdits(init);
          var u :| u in init && MasqueradeEdits(init)[i] == Put(Masquerade(u));
          assert Masquerade(u)[2] == u && Masquerade(up)[2] == up;
        }
        CleanJoined(MasqueradeEdits(init), [Put(Masquerade(up))]);
      }
      forall e ensures e in MasqueradeEdits(ups) <==> exists u :: u in ups && e == Put(Masquerade(u)) {
        if e in MasqueradeEdits(init) { var u :| u in init && e == Put(Masquerade(u)); assert u in ups; }
      }
    }
  }

  lemma NatEditsClean(aps: seq<string>, ups: seq<string>)
    requires Distinct(aps) && Distinct(ups)
    ensures Clean(NatEdits(aps, ups))
  {
    RedirectEditsFor(aps);
    RedirectEditsClean(aps);
    MasqueradeEditsFor(ups);
    var a, b := RedirectEdits(aps), MasqueradeEdits(ups);
    forall i, j | 0 <= i < |a| && 0 <= j < |b| ensures a[i].rule != b[j].rule {
      assert a[i] in a && b[j] in b;
      assert |a[i].rule| == 11 && |b[j].rule| == 5;
    }
    CleanJoined(a, b);
  }

  /** A forward rule names its access point and its uplink. */
  lemma PairRulesDiffer(ap: string, up: string, ap': string, up': string, e: Edit, e': Edit)
    requires e in PairEdits(ap, up) && e' in PairEdits(ap', up') && e.rule == e'.rule
    ensures ap == ap' && up == up'
  {
    assert |ForwardOut(ap, up)| == 7 && ForwardOut(ap, up)[2] == ap && ForwardOut(ap, up)[4] == up;
    assert |ForwardBack(up, ap)| == 11 && ForwardBack(up, ap)[2] == up && ForwardBack(up, ap)[4] == ap;
    assert |ForwardOut(ap', up')| == 7 && ForwardOut(ap', up')[2] == ap' && ForwardOut(ap', up')[4] == up';
    assert |ForwardBack(up', ap')| == 11 && ForwardBack(up', ap')[2] == up' && ForwardBack(up', ap')[4] == ap';
  }

  ghost predicate ForPair(e: Edit, aps: seq<string>, ups: seq<string>) {
    exists ap, up :: ap in aps && up in ups && e in PairEdits(ap, up)
  }

  lemma {:induction false} UplinkEditsFor(aps: seq<string>, up: string)
    ensures forall e :: e in UplinkEdits(aps, up) <==> ForPair(e, aps, [up])
    ensures Distinct(aps) ==> Clean(UplinkEdits(aps, up))
  {
    if aps != [] {
      var init, ap := aps[..|aps| - 1], aps[|aps| - 1];
      var a, b := UplinkEdits(init, up), PairEdits(ap, up);
      UplinkEditsFor(init, up);
      forall e ensures e in UplinkEdits(aps, up) <==> ForPair(e, aps, [up]) {
        if e in a { var x, y :| x in init && y in [up] && e in PairEdits(x, y); assert x in aps; }
        if e in b { assert ap in aps && up in [up]; }
      }
      assert |b[0].rule| == 7 && |b[1].rule| == 11;
      if Distinct(aps) {
        forall i, j | 0 <= i < |a| && 0 <= j < |b| ensures a[i].rule != b[j].rule {
          assert a[i] in a && b[j] in b;
          var x, y :| x in init && y in [up] && a[i] in PairEdits(x, y);
          if a[i].rule == b[j].rule { PairRulesDiffer(x, y, ap, up, a[i], b[j]); }
        }
        CleanJoined(a, b);
      }
    }
  }

  lemma {:induction false} ForwardEditsFor(aps: seq<string>, ups: seq<string>)
    ensures forall e :: e in ForwardEdits(aps, ups) <==> ForPair(e, aps, ups)
    ensures Distinct(aps) && Distinct(ups) ==> Clean(ForwardEdits(aps, ups))
  {
    if ups != [] {
      var init, up := ups[..|ups| - 1], ups[|ups| - 1];
      var a, b := ForwardEdits(aps, init), UplinkEdits(aps, up);
      ForwardEditsFor(aps, init);
      UplinkEditsFor(aps, up);
      forall e ensures e in ForwardEdits(aps, ups) <==> ForPair(e, aps, ups) {
        if e in a { var x, y :| x in aps && y in init && e in PairEdits(x, y); assert y in ups; }
        if e in b { var x, y :| x in aps && y in [up] && e in PairEdits(x, y); assert y in ups; }
        if ForPair(e, aps, ups) {
          var x, y :| x in aps && y in ups && e in PairEdits(x, y);
          assert y in init || y in [up];
        }
      }
      if Distinct(aps) && Distinct(ups) {
        forall i, j | 0 <= i < |a| && 0 <= j < |b| ensures a[i].rule != b[j].rule {
          assert a[i] in a && b[j] in b;
          var x, y :| x in aps && y in init && a[i] in PairEdits(x, y);
          var x', y' :| x' in aps && y' in [up] && b[j] in PairEdits(x', y');
          if a[i].rule == b[j].rule { PairRulesDiffer(x, y, x', y', a[i], b[j]); }
        }
        CleanJoined(a, b);
      }
    }
  }

  // ---------------------------------------------------------------- reconciliation

  /** Rules the reconciler never touches: not in its own chains, and not mentioned by any edit. */
  function Foreign(es: seq<Edit>): Rule -> bool {
    (r: Rule) => !OwnChain(r) && Untouched(es)(r)
  }

  function Copies(rule: Rule, n: nat): Table { seq(n, _ => rule) }

  /** The rules of `t` that `p` keeps, then n copies of `x`, then `puts`. */
  function Normal(p: Rule -> bool, t: Table, x: Rule, n: nat, puts: Table): Table {
    Filter(p, t) + Copies(x, n) + puts
  }

  /** The nat table after n runs. */
  function NatRuns(t: Table, aps: seq<string>, ups: seq<string>, hasAddress: bool, n: nat): Table
    requires ups != []
  {
    if n == 0 then t else AppliedNat(NatRuns(t, aps, ups, hasAddress, n - 1), aps, ups, hasAddress)
  }

  function ForwardRuns(t: Table, aps: seq<string>, ups: seq<string>, hasAddress: bool, n: nat): Table
    requires aps != [] && ups != []
  {
    if n == 0 then t else AppliedForward(ForwardRuns(t, aps, ups, hasAddress, n - 1), aps, ups, hasAddress)
  }

  lemma PutsAreMentioned(es: seq<Edit>)
    ensures forall r :: r in Puts(es) ==> !Untouched(es)(r)
  {
    PutsMembers(es);
    forall r | r in Puts(es) ensures !Untouched(es)(r) {
      var i :| 0 <= i < |es| && es[i] == Put(r);
      assert es[i].rule == r;
    }
  }

  /** The subnet rule the routing set-up appends is not one the reconciler manages. */
  lemma SubnetIsForeign(aps: seq<string>, ups: seq<string>, up: string)
    ensures Foreign(NatEdits(aps, ups))(SubnetMasquerade(up))
  {
    RedirectEditsFor(aps);
    MasqueradeEditsFor(ups);
    var es := NatEdits(aps, ups);
    forall i | 0 <= i < |es| ensures es[i].rule != SubnetMasquerade(up) {
      if i >= |RedirectEdits(aps)| {
        assert es[i] in MasqueradeEdits(ups);
        assert |es[i].rule| == 5;
      } else {
        assert es[i] in RedirectEdits(aps) && |es[i].rule| == 11;
      }
    }
    assert !OwnChain(SubnetMasquerade(up)) by {
      assert SubnetMasquerade(up)[0][0] == 'P' && "LC_INTERNET"[0] == 'L' && "LC_PROXY_REDIRECT"[0] == 'L';
    }
    assert Untouched(es)(SubnetMasquerade(up));
  }

  lemma NatNormalForm(t: Table, aps: seq<string>, ups: seq<string>, hasAddress: bool)
    requires Distinct(aps) && Distinct(ups) && ups != []
    ensures var es := NatEdits(aps, ups);
            AppliedNat(t, aps, ups, hasAddress)
            == Normal(Foreign(es), t, SubnetMasquerade(ups[0]), if hasAddress then 1 else 0, Puts(es))
  {
    var es, x := NatEdits(aps, ups), Copies(SubnetMasquerade(ups[0]), if hasAddress then 1 else 0);
    NatEditsClean(aps, ups);
    EditsNormalForm(Flushed(t + x), es);
    assert t + x == RoutedNat(t, ups, hasAddress);
    FilterBoth(NotOwnChain(), Untouched(es), Foreign(es), t + x);
    FilterConcat(Foreign(es), t, x);
    SubnetIsForeign(aps, ups, ups[0]);
    FilterAll(Foreign(es), x);
  }

  lemma FilterSplit(p: Rule -> bool, good: Table, bad: Table)
    requires (forall r :: r in good ==> p(r)) && forall r :: r in bad ==> !p(r)
    ensures Filter(p, good + bad) == good
  {
    FilterConcat(p, good, bad);
    FilterAll(p, good);
    FilterNone(p, bad);
  }

  /** Normalizing a table in normal form only adds copies. */
  lemma NormalAgain(p: Rule -> bool, t: Table, x: Rule, n: nat, m: nat, puts: Table)
    requires p(x) && forall r :: r in puts ==> !p(r)
    ensures Normal(p, Normal(p, t, x, n, puts), x, m, puts) == Normal(p, t, x, n + m, puts)
  {
    FilterMembers(p, t);
    assert forall r :: r in Copies(x, n) ==> r == x;
    FilterSplit(p, Filter(p, t) + Copies(x, n), puts);
    assert Copies(x, n) + Copies(x, m) == Copies(x, n + m);
  }

  /** The nat table after any number n >= 1 of runs, from any starting table: first the foreign rules
      in their old order, then n copies of the subnet masquerade (none if the uplink has no address),
      then the managed rules in order, each once. */
  lemma {:induction false} NatAfterRuns(t: Table, aps: seq<string>, ups: seq<string>, hasAddress: bool, n: nat)
    requires Distinct(aps) && Distinct(ups) && ups != [] && n >= 1
    ensures var es := NatEdits(aps, ups);
            NatRuns(t, aps, ups, hasAddress, n)
            == Normal(Foreign(es), t, SubnetMasquerade(ups[0]), if hasAddress then n else 0, Puts(es))
  {
    var es := NatEdits(aps, ups);
    NatNormalForm(NatRuns(t, aps, ups, hasAddress, n - 1), aps, ups, hasAddress);
    if n > 1 {
      NatAfterRuns(t, aps, ups, hasAddress, n - 1);
      SubnetIsForeign(aps, ups, ups[0]);
      PutsAreMentioned(es);
      var before, added: nat := if hasAddress then n - 1 else 0, if hasAddress then 1 else 0;
      NormalAgain(Foreign(es), t, SubnetMasquerade(ups[0]), before, added, Puts(es));
    } else {
      assert NatRuns(t, aps, ups, hasAddress, 0) == t;
    }
  }

  lemma FilterTail(p: Rule -> bool, t: Table, a: Rule, b: Rule)
    requires !p(a) && !p(b)
    ensures Filter(p, t + [a] + [b]) == Filter(p, t)
  {
    FilterConcat(p, t + [a], [b]);
    FilterConcat(p, t, [a]);
  }

  /** What the routing set-up appends to the forward table is managed, so one run gives the normal form. */
  lemma ForwardNormalForm(t: Table, aps: seq<string>, ups: seq<string>, hasAddress: bool)
    requires Distinct(aps) && Distinct(ups) && aps != [] && ups != []
    ensures var es := ForwardEdits(aps, ups);
            AppliedForward(t, aps, ups, hasAddress) == Filter(Untouched(es), t) + Puts(es)
  {
    var es := ForwardEdits(aps, ups);
    ForwardEditsFor(aps, ups);
    EditsNormalForm(RoutedForward(t, aps, ups, hasAddress), es);
    FirstPairManaged(aps, ups);
    FilterTail(Untouched(es), t, ForwardOut(aps[0], ups[0]), ForwardBack(ups[0], aps[0]));
  }

  lemma {:induction false} FirstPairManaged(aps: seq<string>, ups: seq<string>)
    requires aps != [] && ups != []
    ensures var es := ForwardEdits(aps, ups);
            !Untouched(es)(ForwardOut(aps[0], ups[0])) && !Untouched(es)(ForwardBack(ups[0], aps[0]))
  {
    var es := ForwardEdits(aps, ups);
    ForwardEditsFor(aps, ups);
    assert aps[0] in aps && ups[0] in ups;
    forall e | e in PairEdits(aps[0], ups[0]) ensures !Untouched(es)(e.rule) {
      assert ForPair(e, aps, ups);
      var i :| 0 <= i < |es| && es[i] == e;
    }
    assert PairEdits(aps[0], ups[0])[0] in PairEdits(aps[0], ups[0])
      && PairEdits(aps[0], ups[0])[1] in PairEdits(aps[0], ups[0]);
  }

  lemma KeptAgain(p: Rule -> bool, t: Table, puts: Table)
    requires forall r :: r in puts ==> !p(r)
    ensures Filter(p, Filter(p, t) + puts) == Filter(p, t)
  {
    FilterMembers(p, t);
    FilterSplit(p, Filter(p, t), puts);
  }

  /** The forward table needs one run only: every further run leaves it as the first one did. */
  lemma {:induction false} ForwardAfterRuns(t: Table, aps: seq<string>, ups: seq<string>, hasAddress: bool, n: nat)
    requires Distinct(aps) && Distinct(ups) && aps != [] && ups != [] && n >= 1
    ensures var es := ForwardEdits(aps, ups);
            ForwardRuns(t, aps, ups, hasAddress, n) == Filter(Untouched(es), t) + Puts(es)
  {
    var es := ForwardEdits(aps, ups);
    ForwardNormalForm(ForwardRuns(t, aps, ups, hasAddress, n - 1), aps, ups, hasAddress);
    if n > 1 {
      ForwardAfterRuns(t, aps, ups, hasAddress, n - 1);
      PutsAreMentioned(es);
      KeptAgain(Untouched(es), t, Puts(es));
    } else {
      assert ForwardRuns(t, aps, ups, hasAddress, 0) == t;
    }
  }

  predicate Once(t: Table, rule: Rule) {
    rule in t && forall i, j :: 0 <= i < j < |t| ==> t[i] != rule || t[j] != rule
  }

  lemma {:induction false} PutsDistinct(es: seq<Edit>)
    requires Clean(es)
    ensures Distinct(Puts(es))
  {
    if es != [] {
      var init := es[..|es| - 1];
      PutsDistinct(init);
      PutsMembers(init);
      forall i | 0 <= i < |Puts(init)| ensures Puts(init)[i] != es[|es| - 1].rule {
        assert Puts(init)[i] in Puts(init);
        var k :| 0 <= k < |init| && init[k] == Put(Puts(init)[i]);
        assert es[k] == init[k];
      }
    }
  }

  lemma PutOccursOnce(es: seq<Edit>, kept: Table, rule: Rule)
    requires Clean(es) && Put(rule) in es && rule !in kept
    ensures Once(kept + Puts(es), rule)
  {
    PutsMembers(es);
    PutsDistinct(es);
  }

  /** After any number of runs, from any tables: every redirect, masquerade and forward rule the
      server needs occurs exactly once, for every access point and uplink, and no stale portal rule
      is left. */
  lemma ReconciledExactlyOnce(nat0: Table, forward0: Table, aps: seq<string>, ups: seq<string>, hasAddress: bool,
                              n: nat, ap: string, up: string)
    requires Distinct(aps) && Distinct(ups) && ap in aps && up in ups && n >= 1
    ensures var natTable := NatRuns(nat0, aps, ups, hasAddress, n);
            && Once(natTable, Redirect(ap, "80")) && Once(natTable, Redirect(ap, "443"))
              && Once(natTable, Masquerade(up))
            && forall r :: r in Stale(ap) ==> r !in natTable
    ensures var forwardTable := ForwardRuns(forward0, aps, ups, hasAddress, n);
            Once(forwardTable, ForwardOut(ap, up)) && Once(forwardTable, ForwardBack(up, ap))
  {
    NatOnce(nat0, aps, ups, hasAddress, n, ap, up);
    var fs := ForwardEdits(aps, ups);
    ForwardAfterRuns(forward0, aps, ups, hasAddress, n);
    ForwardEditsFor(aps, ups);
    FilterMembers(Untouched(fs), forward0);
    var out, back := Put(ForwardOut(ap, up)), Put(ForwardBack(up, ap));
    assert out in PairEdits(ap, up) && back in PairEdits(ap, up);
    assert out in fs && back in fs;
    PutsMembers(fs);
    PutsAreMentioned(fs);
    PutOccursOnce(fs, Filter(Untouched(fs), forward0), out.rule);
    PutOccursOnce(fs, Filter(Untouched(fs), forward0), back.rule);
  }

  lemma NatOnce(t: Table, aps: seq<string>, ups: seq<string>, hasAddress: bool, n: nat, ap: string, up: string)
    requires Distinct(aps) && Distinct(ups) && ap in aps && up in ups && n >= 1
    ensures var natTable := NatRuns(t, aps, ups, hasAddress, n);
            && Once(natTable, Redirect(ap, "80")) && Once(natTable, Redirect(ap, "443"))
              && Once(natTable, Masquerade(up))
            && forall r :: r in Stale(ap) ==> r !in natTable
  {
    var es, x := NatEdits(aps, ups), SubnetMasquerade(ups[0]);
    var kept := Filter(Foreign(es), t) + Copies(x, if hasAddress then n else 0);
    NatAfterRuns(t, aps, ups, hasAddress, n);
    SubnetIsForeign(aps, ups, ups[0]);
    FilterMembers(Foreign(es), t);
    assert forall r :: r in kept ==> Untouched(es)(r);
    PresentOnce(aps, ups, ap, up, kept, Redirect(ap, "80"));
    PresentOnce(aps, ups, ap, up, kept, Redirect(ap, "443"));
    PresentOnce(aps, ups, ap, up, kept, Masquerade(up));
    forall r | r in Stale(ap) ensures r !in kept + Puts(es) {
      EditPresent(aps, ups, ap, up, Del(r));
      StaleNotPut(aps, ups, ap, r);
    }
  }

  lemma PresentOnce(aps: seq<string>, ups: seq<string>, ap: string, up: string, kept: Table, r: Rule)
    requires Distinct(aps) && Distinct(ups) && ap in aps && up in ups
    requires r == Redirect(ap, "80") || r == Redirect(ap, "443") || r == Masquerade(up)
    requires forall k :: k in kept ==> Untouched(NatEdits(aps, ups))(k)
    ensures Once(kept + Puts(NatEdits(aps, ups)), r)
  {
    assert Put(r) == Put(Masquerade(up)) || Put(r) in ApEdits(ap);
    EditPresent(aps, ups, ap, up, Put(r));
    NatEditsClean(aps, ups);
    PutOccursOnce(NatEdits(aps, ups), kept, r);
  }

  lemma EditPresent(aps: seq<string>, ups: seq<string>, ap: string, up: string, e: Edit)
    requires ap in aps && up in ups && (e in ApEdits(ap) || e == Put(Masquerade(up)))
    ensures e in NatEdits(aps, ups) && !Untouched(NatEdits(aps, ups))(e.rule)
  {
    RedirectEditsFor(aps);
    MasqueradeEditsFor(ups);
    assert e in RedirectEdits(aps) || e in MasqueradeEdits(ups);
    MentionedIn(NatEdits(aps, ups), e);
  }

  lemma MentionedIn(es: seq<Edit>, e: Edit)
    requires e in es
    ensures !Untouched(es)(e.rule)
  {
    var i :| 0 <= i < |es| && es[i] == e;
  }

  lemma StaleNotPut(aps: seq<string>, ups: seq<string>, ap: string, r: Rule)
    requires r in Stale(ap)
    ensures r !in Puts(NatEdits(aps, ups))
  {
    var es := NatEdits(aps, ups);
    PutsMembers(es);
    forall i | 0 <= i < |es| ensures es[i] != Put(r) { StaleNeverPut(aps, ups, ap, r, i); }
  }

  lemma StaleNeverPut(aps: seq<string>, ups: seq<string>, ap: string, r: Rule, i: nat)
    requires r in Stale(ap) && i < |NatEdits(aps, ups)|
    ensures NatEdits(aps, ups)[i] != Put(r)
  {
    var e := NatEdits(aps, ups)[i];
    if i < |RedirectEdits(aps)| {
      RedirectEditsFor(aps);
      assert e in RedirectEdits(aps);
      StaleIsNotRedirect(ap, r, e.rule[2], e);
    } else {
      MasqueradeEditsFor(ups);
      assert e in MasqueradeEdits(ups);
      assert |e.rule| == 5 && |r| == 11;
    }
  }

  lemma StaleIsNotRedirect(ap: string, r: Rule, other: string, e: Edit)
    requires r in Stale(ap) && e in ApEdits(other)
    ensures e != Put(r)
  {
    assert |r| == 11 && r[10] in ["192.168.4.1:80", "80", "18080"];
    if e.Put? {
      assert e.rule[10] == "3128";
      TargetsDiffer();
    }
  }

  lemma TargetsDiffer()
    ensures "3128" !in ["192.168.4.1:80", "80", "18080"]
  {
    assert |"3128"| == 4 && |"80"| == 2 && |"18080"| == 5 && |"192.168.4.1:80"| == 14;
  }

  /** The reconciler is meant to be repeatable. On the nat table it is exactly when the uplink has no
      address: otherwise each run leaves one more copy of the subnet masquerade, because the answer
      of the check before that append is not used. */
  lemma RepeatableIffNoAddress(t: Table, aps: seq<string>, ups: seq<string>, hasAddress: bool, n: nat)
    requires Distinct(aps) && Distinct(ups) && ups != [] && n >= 1
    ensures NatRuns(t, aps, ups, hasAddress, n + 1) == NatRuns(t, aps, ups, hasAddress, n) <==> !hasAddress
    ensures |NatRuns(t, aps, ups, hasAddress, n + 1)|
         == |NatRuns(t, aps, ups, hasAddress, n)| + if hasAddress then 1 else 0
  {
    NatAfterRuns(t, aps, ups, hasAddress, n);
    NatAfterRuns(t, aps, ups, hasAddress, n + 1);
    var p, x, puts := Foreign(NatEdits(aps, ups)), SubnetMasquerade(ups[0]), Puts(NatEdits(aps, ups));
    NormalLength(p, t, x, n, puts);
    NormalLength(p, t, x, n + 1, puts);
  }

  lemma NormalLength(p: Rule -> bool, t: Table, x: Rule, n: nat, puts: Table)
    ensures |Normal(p, t, x, n, puts)| == |Filter(p, t)| + n + |puts|
  {
  }

  // ---------------------------------------------------------------- the tables, rule by rule

  /** The rules that send web traffic of every access point to the proxy, and hide clients behind every uplink. */
  function WantedNat(aps: seq<string>, ups: seq<string>): Table { WantedRedirects(aps) + WantedMasquerades(ups) }

  function WantedRedirects(aps: seq<string>): Table {
    if aps == [] then [] else
      var ap := aps[|aps| - 1];
      WantedRedirects(aps[..|aps| - 1])
      + [["PREROUTING", "-i", ap, "-p", "tcp", "--dport", "80", "-j", "REDIRECT", "--to-port", "3128"],
         ["PREROUTING", "-i", ap, "-p", "tcp", "--dport", "443", "-j", "REDIRECT", "--to-port", "3128"]]
  }

  function WantedMasquerades(ups: seq<string>): Table {
    if ups == [] then []
    else WantedMasquerades(ups[..|ups| - 1]) + [["POSTROUTING", "-o", ups[|ups| - 1], "-j", "MASQUERADE"]]
  }

  /** Old portal rules, none of which must stay. */
  predicate Unwanted(aps: seq<string>, r: Rule) {
    && |r| == 11 && r[2] in aps
    && r[..2] == ["PREROUTING", "-i"] && r[3..8] == ["-p", "tcp", "--dport", "80", "-j"]
    && r[8..] in [["DNAT", "--to-destination", "192.168.4.1:80"], ["REDIRECT", "--to-port", "80"],
                  ["REDIRECT", "--to-port", "18080"]]
  }

  /** The rules of the nat table that are nobody's business here. */
  function NatOfOthers(aps: seq<string>, ups: seq<string>): Rule -> bool {
    (r: Rule) =>
      && (r == [] || (r[0] != "LC_INTERNET" && r[0] != "LC_PROXY_REDIRECT"))
      && !Unwanted(aps, r) && r !in WantedNat(aps, ups)
  }

  /** For every uplink and every access point: what goes out, and what comes back to it. */
  function WantedForward(aps: seq<string>, ups: seq<string>): Table {
    if ups == [] then [] else WantedForward(aps, ups[..|ups| - 1]) + WantedForUplink(aps, ups[|ups| - 1])
  }

  function WantedForUplink(aps: seq<string>, up: string): Table {
    if aps == [] then [] else
      var ap := aps[|aps| - 1];
      WantedForUplink(aps[..|aps| - 1], up)
      + [["FORWARD", "-i", ap, "-o", up, "-j", "ACCEPT"],
         ["FORWARD", "-i", up, "-o", ap, "-m", "state", "--state", "RELATED,ESTABLISHED", "-j", "ACCEPT"]]
  }

  function ForwardOfOthers(aps: seq<string>, ups: seq<string>): Rule -> bool {
    (r: Rule) => r !in WantedForward(aps, ups)
  }

  lemma {:induction false} PutsJoined(a: seq<Edit>, b: seq<Edit>)
    ensures Puts(a + b) == Puts(a) + Puts(b)
  {
    if b == [] {
      assert a + b == a;
    } else {
      assert (a + b)[..|a + b| - 1] == a + b[..|b| - 1];
      PutsJoined(a, b[..|b| - 1]);
    }
  }

  lemma ApPuts(ap: string)
    ensures Puts(ApEdits(ap)) == [Redirect(ap, "80"), Redirect(ap, "443")]
  {
    var es := ApEdits(ap);
    assert Puts(es[..3]) == [] by {
      assert es[..3][..2] == es[..2] && es[..2][..1] == es[..1] && es[..1][..0] == [];
      assert Puts(es[..1]) == [];
      assert Puts(es[..2]) == [];
    }
    assert es[..4][..3] == es[..3] && es[..4][3] == es[3] && es[..5] == es && es[..5][..4] == es[..4];
    assert Puts(es[..4]) == [Redirect(ap, "80")];
  }

  lemma {:induction false} RedirectPuts(aps: seq<string>)
    ensures Puts(RedirectEdits(aps)) == WantedRedirects(aps)
  {
    if aps != [] {
      RedirectPuts(aps[..|aps| - 1]);
      PutsJoined(RedirectEdits(aps[..|aps| - 1]), ApEdits(aps[|aps| - 1]));
      ApPuts(aps[|aps| - 1]);
    }
  }

  lemma {:induction false} MasqueradePuts(ups: seq<string>)
    ensures Puts(MasqueradeEdits(ups)) == WantedMasquerades(ups)
  {
    if ups != [] {
      var init, last := MasqueradeEdits(ups[..|ups| - 1]), [Put(Masquerade(ups[|ups| - 1]))];
      MasqueradePuts(ups[..|ups| - 1]);
      PutsJoined(init, last);
      assert Puts(last) == [Masquerade(ups[|ups| - 1])] by { assert last[..0] == []; }
    }
  }

  lemma {:induction false} UplinkPuts(aps: seq<string>, up: string)
    ensures Puts(UplinkEdits(aps, up)) == WantedForUplink(aps, up)
  {
    if aps != [] {
      var ap := aps[|aps| - 1];
      var pair := PairEdits(ap, up);
      UplinkPuts(aps[..|aps| - 1], up);
      PutsJoined(UplinkEdits(aps[..|aps| - 1], up), pair);
      assert pair[..1][..0] == [] && Puts(pair[..1]) == [ForwardOut(ap, up)];
      assert Puts(pair) == [ForwardOut(ap, up), ForwardBack(up, ap)];
    }
  }

  lemma {:induction false} ForwardPuts(aps: seq<string>, ups: seq<string>)
    ensures Puts(ForwardEdits(aps, ups)) == WantedForward(aps, ups)
  {
    if ups != [] {
      ForwardPuts(aps, ups[..|ups| - 1]);
      UplinkPuts(aps, ups[|ups| - 1]);
      PutsJoined(ForwardEdits(aps, ups[..|ups| - 1]), UplinkEdits(aps, ups[|ups| - 1]));
    }
  }

  lemma StaleIsUnwanted(aps: seq<string>, r: Rule)
    ensures Unwanted(aps, r) <==> |r| == 11 && r[2] in aps && r in Stale(r[2])
  {
    if Unwanted(aps, r) {
      assert r == r[..2] + [r[2]] + r[3..8] + r[8..];
      assert r == Stale(r[2])[0] || r == Stale(r[2])[1] || r == Stale(r[2])[2];
    }
  }

  lemma NatPuts(aps: seq<string>, ups: seq<string>)
    ensures Puts(NatEdits(aps, ups)) == WantedNat(aps, ups)
  {
    PutsJoined(RedirectEdits(aps), MasqueradeEdits(ups));
    RedirectPuts(aps);
    MasqueradePuts(ups);
  }

  lemma UnwantedIsMentioned(aps: seq<string>, ups: seq<string>, r: Rule)
    requires Unwanted(aps, r)
    ensures !Untouched(NatEdits(aps, ups))(r)
  {
    StaleIsUnwanted(aps, r);
    assert Del(r) in ApEdits(r[2]);
    RedirectEditsFor(aps);
    assert Del(r) in RedirectEdits(aps);
    MentionedIn(NatEdits(aps, ups), Del(r));
  }

  /** A rule is mentioned by an edit exactly if it is wanted or an old portal rule. */
  lemma MentionedIff(aps: seq<string>, ups: seq<string>, r: Rule)
    ensures Untouched(NatEdits(aps, ups))(r) <==> !Unwanted(aps, r) && r !in WantedNat(aps, ups)
  {
    var es := NatEdits(aps, ups);
    NatPuts(aps, ups);
    if r in WantedNat(aps, ups) { PutsAreMentioned(es); }
    if Unwanted(aps, r) { UnwantedIsMentioned(aps, ups, r); }
    if !Untouched(es)(r) && r !in WantedNat(aps, ups) {
      var i :| 0 <= i < |es| && es[i].rule == r;
      PutsMembers(es);
      assert es[i] == Del(r) by { assert es[i] in es; }
      DeletedIsStale(aps, ups, i);
      StaleIsUnwanted(aps, r);
    }
  }

  lemma DeletedIsStale(aps: seq<string>, ups: seq<string>, i: nat)
    requires i < |NatEdits(aps, ups)| && NatEdits(aps, ups)[i].Del?
    ensures var r := NatEdits(aps, ups)[i].rule; |r| == 11 && r[2] in aps && r in Stale(r[2])
  {
    var e := NatEdits(aps, ups)[i];
    assert e in RedirectEdits(aps) || e in MasqueradeEdits(ups);
    RedirectEditsFor(aps);
    MasqueradeEditsFor(ups);
    DeletedForAp(e.rule[2], e);
  }

  lemma DeletedForAp(ap: string, e: Edit)
    requires e in ApEdits(ap) && e.Del?
    ensures e.rule in Stale(ap)
  {
  }

  lemma {:induction false} FilterSame<T(!new)>(p: T -> bool, q: T -> bool, s: seq<T>)
    requires forall x :: p(x) <==> q(x)
    ensures Filter(p, s) == Filter(q, s)
  {
    if s != [] { FilterSame(p, q, s[1..]); }
  }

  /** The nat table after any number n >= 1 of runs, rule by rule: the others' rules in their old
      order; n times the subnet masquerade if the first uplink has an address; the redirects of every
      access point and the masquerade of every uplink, in turn. */
  lemma NatRuleByRule(t: Table, aps: seq<string>, ups: seq<string>, hasAddress: bool, n: nat)
    requires Distinct(aps) && Distinct(ups) && ups != [] && n >= 1
    ensures NatRuns(t, aps, ups, hasAddress, n)
         == Filter(NatOfOthers(aps, ups), t)
            + (if hasAddress
               then seq(n, _ => ["POSTROUTING", "-s", "192.168.4.0/24", "-o", ups[0], "-j", "MASQUERADE"]) else [])
            + WantedNat(aps, ups)
  {
    var es := NatEdits(aps, ups);
    NatAfterRuns(t, aps, ups, hasAddress, n);
    NatPuts(aps, ups);
    forall r ensures Foreign(es)(r) <==> NatOfOthers(aps, ups)(r) { MentionedIff(aps, ups, r); }
    FilterSame(Foreign(es), NatOfOthers(aps, ups), t);
    assert hasAddress ==> Copies(SubnetMasquerade(ups[0]), n)
                          == seq(n, _ => ["POSTROUTING", "-s", "192.168.4.0/24", "-o", ups[0], "-j", "MASQUERADE"]);
  }

  /** And the forward table: the others' rules, and the pair of rules of every uplink and access point. */
  lemma ForwardRuleByRule(t: Table, aps: seq<string>, ups: seq<string>, hasAddress: bool, n: nat)
    requires Distinct(aps) && Distinct(ups) && aps != [] && ups != [] && n >= 1
    ensures ForwardRuns(t, aps, ups, hasAddress, n)
         == Filter(ForwardOfOthers(aps, ups), t) + WantedForward(aps, ups)
  {
    var es := ForwardEdits(aps, ups);
    ForwardAfterRuns(t, aps, ups, hasAddress, n);
    ForwardPuts(aps, ups);
    ForwardEditsFor(aps, ups);
    PutsMembers(es);
    forall r ensures Untouched(es)(r) <==> ForwardOfOthers(aps, ups)(r) { ForwardMentionedIff(aps, ups, r); }
    FilterSame(Untouched(es), ForwardOfOthers(aps, ups), t);
  }

  lemma ForwardMentionedIff(aps: seq<string>, ups: seq<string>, r: Rule)
    ensures Untouched(ForwardEdits(aps, ups))(r) <==> r !in WantedForward(aps, ups)
  {
    var es := ForwardEdits(aps, ups);
    ForwardPuts(aps, ups);
    ForwardEditsFor(aps, ups);
    PutsMembers(es);
    PutsAreMentioned(es);
    if !Untouched(es)(r) {
      var i :| 0 <= i < |es| && es[i].rule == r;
      assert es[i] in es && es[i].Put?;
    }
  }
}
