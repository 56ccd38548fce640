/** What phase one of an import lets through, and what the rows of a store say. */
module HostImportLaws {
  import opened Identifiers
  import opened Ordering
  import opened Text
  import opened HostTags
  import opened SecretCipher
  import opened HostService
  import opened HostImport

  // ---------------------------------------------------------------- phase one

  /** A payload that phase one lets through. */
  predicate Acceptable(existing: set<Addr>, items: seq<HostDTO>) {
    forall i :: 0 <= i < |items| ==>
      WellNamed(items[i]) && (FirstNew(existing, items, i) ==> Importable(items[i].methods))
  }

  predicate HasIndex(candidates: seq<Candidate>, i: nat) {
    exists k :: 0 <= k < |candidates| && candidates[k].index == i
  }

  /** A candidate stands for the first item with some new address. */
  ghost predicate ChosenAs(existing: set<Addr>, items: seq<HostDTO>, candidate: Candidate) {
    var i := candidate.index;
    && i < |items| && FirstNew(existing, items, i)
    && candidate == CandidateFor(i, items[i]) && Importable(candidate.methods)
  }

  /** The candidates are the first items with each new address, in payload order. */
  ghost predicate Chosen(existing: set<Addr>, items: seq<HostDTO>, candidates: seq<Candidate>) {
    && (forall k :: 0 <= k < |candidates| ==> ChosenAs(existing, items, candidates[k]))
    && (forall a, b :: 0 <= a < b < |candidates| ==> candidates[a].index < candidates[b].index)
    && (forall i :: 0 <= i < |items| && FirstNew(existing, items, i) ==> HasIndex(candidates, i))
  }

  ghost predicate Seen(existing: set<Addr>, items: seq<HostDTO>, seen: set<Addr>) {
    forall ip :: ip in seen <==> ip !in existing && exists i :: 0 <= i < |items| && items[i].ip == ip
  }

  lemma {:induction false} ScreeningExactly(existing: set<Addr>, items: seq<HostDTO>)
    ensures Screen(existing, items).Screened? <==> Acceptable(existing, items)
    ensures var r := Screen(existing, items);
            if r.Screened?
            then Chosen(existing, items, r.candidates) && Seen(existing, items, r.seen) && |r.candidates| + r.skipped == |items|
            else r.reply.InvalidHost? || r.reply.InvalidMethod?
  {
    if items != [] {
      var n := |items| - 1;
      ScreeningExactly(existing, items[..n]);
      AcceptableStep(existing, items);
      var before := Screen(existing, items[..n]);
      if before.Screened? {
        ScreenOneExactly(existing, items, before);
      }
    }
  }

  lemma ScreenOneExactly(existing: set<Addr>, items: seq<HostDTO>, before: Screening)
    requires items != [] && before.Screened?
    requires var prefix := items[..|items| - 1];
             && Chosen(existing, prefix, before.candidates) && Seen(existing, prefix, before.seen)
             && |before.candidates| + before.skipped == |prefix| && Acceptable(existing, prefix)
    ensures var after := ScreenOne(existing, before, items[|items| - 1], |items| - 1);
            && (after.Screened? <==> Acceptable(existing, items))
            && (after.Screened? ==>
                  && Chosen(existing, items, after.candidates) && Seen(existing, items, after.seen)
                  && |after.candidates| + after.skipped == |items|)
  {
    AcceptableStep(existing, items);
    LastIsFirstNew(existing, items, before.seen);
    if Acceptable(existing, items) {
      SeenStep(existing, items, before.seen);
      if FirstNew(existing, items, |items| - 1) {
        ChosenAdd(existing, items, before.candidates, CandidateFor(|items| - 1, items[|items| - 1]));
      } else {
        ChosenSkip(existing, items, before.candidates);
      }
    }
  }

  lemma AcceptableStep(existing: set<Addr>, items: seq<HostDTO>)
    requires items != []
    ensures var n := |items| - 1;
            Acceptable(existing, items) <==>
            && Acceptable(existing, items[..n]) && WellNamed(items[n])
            && (FirstNew(existing, items, n) ==> Importable(items[n].methods))
  {
    var n := |items| - 1;
    assert forall i :: 0 <= i < n ==> items[..n][i] == items[i];
  }

  lemma LastIsFirstNew(existing: set<Addr>, items: seq<HostDTO>, seen: set<Addr>)
    requires items != [] && Seen(existing, items[..|items| - 1], seen)
    ensures var n := |items| - 1;
            FirstNew(existing, items, n) <==> items[n].ip !in existing && items[n].ip !in seen
  {
    var n := |items| - 1;
    assert forall j :: 0 <= j < n ==> items[..n][j] == items[j];
  }

  lemma SeenStep(existing: set<Addr>, items: seq<HostDTO>, seen: set<Addr>)
    requires items != [] && Seen(existing, items[..|items| - 1], seen)
    ensures var ip := items[|items| - 1].ip;
            Seen(existing, items, if ip in existing || ip in seen then seen else seen + {ip})
  {
    var n := |items| - 1;
    assert forall j :: 0 <= j < n ==> items[..n][j] == items[j];
    assert items[n].ip == items[n].ip;
  }

  lemma ChosenSkip(existing: set<Addr>, items: seq<HostDTO>, candidates: seq<Candidate>)
    requires items != [] && Chosen(existing, items[..|items| - 1], candidates) && !FirstNew(existing, items, |items| - 1)
    ensures Chosen(existing, items, candidates)
  {
    forall k | 0 <= k < |candidates|
      ensures ChosenAs(existing, items, candidates[k])
    {
      ChosenAsPrefix(existing, items, candidates[k]);
    }
  }

  lemma ChosenAdd(existing: set<Addr>, items: seq<HostDTO>, candidates: seq<Candidate>, candidate: Candidate)
    requires items != [] && Chosen(existing, items[..|items| - 1], candidates)
    requires ChosenAs(existing, items, candidate) && candidate.index == |items| - 1
    ensures Chosen(existing, items, candidates + [candidate])
  {
    forall k | 0 <= k < |candidates|
      ensures ChosenAs(existing, items, candidates[k]) && candidates[k].index < |items| - 1
    {
      ChosenAsPrefix(existing, items, candidates[k]);
    }
    forall i | 0 <= i < |items| && FirstNew(existing, items, i)
      ensures HasIndex(candidates + [candidate], i)
    {
      HasIndexStep(candidates, candidate, i);
    }
  }

  lemma ChosenAsPrefix(existing: set<Addr>, items: seq<HostDTO>, candidate: Candidate)
    requires items != [] && ChosenAs(existing, items[..|items| - 1], candidate)
    ensures ChosenAs(existing, items, candidate) && candidate.index < |items| - 1
  {
  }

  lemma HasIndexStep(candidates: seq<Candidate>, candidate: Candidate, i: nat)
    ensures HasIndex(candidates + [candidate], i) <==> HasIndex(candidates, i) || candidate.index == i
  {
    var after := candidates + [candidate];
    assert after[|candidates|] == candidate;
    if HasIndex(candidates, i) {
      var k :| 0 <= k < |candidates| && candidates[k].index == i;
      assert after[k].index == i;
    }
  }

  // ---------------------------------------------------------------- why a payload is refused

  /** Item `i` lacks a name or an address, or is the first with a new address and has
      method `j` as its first that is not importable. */
  predicate IsRefusal(existing: set<Addr>, items: seq<HostDTO>, reply: Reply) {
    || (reply.InvalidHost? && reply.index < |items| && !WellNamed(items[reply.index]))
    || (reply.InvalidMethod? && reply.index < |items| && WellNamed(items[reply.index]) && FirstNew(existing, items, reply.index)
        && reply.methodIndex < |items[reply.index].methods|
        && !ImportableMethod(items[reply.index].methods[reply.methodIndex])
        && Importable(items[reply.index].methods[..reply.methodIndex]))
  }

  /** A payload that is refused is refused for its first item that is not acceptable, and
      the reply says what is wrong with it. */
  lemma {:induction false} RefusedExactly(existing: set<Addr>, items: seq<HostDTO>)
    requires !Acceptable(existing, items)
    ensures var r := Screen(existing, items);
            r.Rejected? && IsRefusal(existing, items, r.reply) && Acceptable(existing, items[..r.reply.index])
  {
    var n := |items| - 1;
    ScreeningExactly(existing, items[..n]);
    if Acceptable(existing, items[..n]) {
      LastIsRefused(existing, items);
    } else {
      RefusedExactly(existing, items[..n]);
      var reply := Screen(existing, items[..n]).reply;
      assert items[..n][..reply.index] == items[..reply.index];
      StillRefusal(existing, items, reply);
    }
  }

  lemma StillRefusal(existing: set<Addr>, items: seq<HostDTO>, reply: Reply)
    requires items != [] && IsRefusal(existing, items[..|items| - 1], reply)
    ensures IsRefusal(existing, items, reply)
  {
  }

  lemma LastIsRefused(existing: set<Addr>, items: seq<HostDTO>)
    requires items != [] && Acceptable(existing, items[..|items| - 1]) && !Acceptable(existing, items)
    ensures var r := Screen(existing, items);
            r.Rejected? && IsRefusal(existing, items, r.reply) && r.reply.index == |items| - 1
  {
    var n := |items| - 1;
    ScreeningExactly(existing, items[..n]);
    AcceptableStep(existing, items);
    LastIsFirstNew(existing, items, Screen(existing, items[..n]).seen);
    RefusedMethod(items[n].methods);
  }

  lemma {:induction false} RefusedMethod(methods: seq<MethodDTO>)
    ensures Importable(methods) <==> FirstRefused(methods) == |methods|
    ensures !Importable(methods) ==>
              FirstRefused(methods) < |methods| && !ImportableMethod(methods[FirstRefused(methods)])
              && Importable(methods[..FirstRefused(methods)])
  {
    if methods != [] {
      var n := |methods| - 1;
      RefusedMethod(methods[..n]);
      assert methods == methods[..n] + [methods[n]];
      var j := FirstRefused(methods[..n]);
      assert j <= n ==> methods[..n][..j] == methods[..j];
    }
  }

  // ---------------------------------------------------------------- what a row says

  ghost function RowPayload(c: Crypto, m: Method): MethodDTO
    requires SecretOf(c, m).Ok?
  {
    MethodPayload(m, SecretOf(c, m).value)
  }

  /** What the rows of one host say. */
  ghost function RowPayloads(c: Crypto, methods: seq<Method>, hostID: UUID): seq<MethodDTO> {
    if methods == [] then []
    else
      var last := methods[|methods| - 1];
      RowPayloads(c, methods[..|methods| - 1], hostID)
      + if last.hostID == hostID && SecretOf(c, last).Ok? then [RowPayload(c, last)] else []
  }

  /** Every row's secret can be read, under its host. */
  ghost predicate Readable(s: Store, c: Crypto, methods: seq<Method>) {
    forall m :: m in methods ==> SecretOf(c, m).Ok? && GetSecret(s, c, m.hostID, m.id) == SecretOf(c, m)
  }

  lemma ValidIsReadable(s: Store, c: Crypto)
    requires Valid(s, c)
    ensures Readable(s, c, s.methods)
  {
    forall m | m in s.methods
      ensures SecretOf(c, m).Ok? && GetSecret(s, c, m.hostID, m.id) == SecretOf(c, m)
    {
      var k :| 0 <= k < |s.methods| && s.methods[k] == m;
      FindMethodAt(s.methods, k);
      assert MethodInv(c, s.methods[k]);
    }
  }

  /** In a well-formed store the export of a host's methods skips none. */
  lemma {:induction false} ExportReadsEveryRow(s: Store, c: Crypto, h: Host, methods: seq<Method>)
    requires Readable(s, c, methods)
    ensures MethodPayloads(s, c, h.id, MethodsOf(methods, h.id)) == RowPayloads(c, methods, h.id)
    ensures MethodWarnings(s, c, h, MethodsOf(methods, h.id)) == []
    ensures |RowPayloads(c, methods, h.id)| == |MethodsOf(methods, h.id)|
  {
    if methods != [] {
      var rest, last := methods[..|methods| - 1], methods[|methods| - 1];
      assert last in methods;
      ExportReadsEveryRow(s, c, h, rest);
      var before := MethodsOf(rest, h.id);
      if last.hostID == h.id {
        PayloadsAppend(s, c, h, before, last);
        assert MethodsOf(methods, h.id) == before + [last];
      } else {
        assert MethodsOf(methods, h.id) == before;
      }
    }
  }

  lemma PayloadsAppend(s: Store, c: Crypto, h: Host, methods: seq<Method>, m: Method)
    requires GetSecret(s, c, h.id, m.id).Ok?
    ensures MethodPayloads(s, c, h.id, methods + [m])
         == MethodPayloads(s, c, h.id, methods) + [MethodPayload(m, GetSecret(s, c, h.id, m.id).value)]
    ensures MethodWarnings(s, c, h, methods + [m]) == MethodWarnings(s, c, h, methods)
  {
    assert (methods + [m])[..|methods|] == methods;
  }

  lemma PayloadIsRows(s: Store, c: Crypto, h: Host)
    requires Valid(s, c)
    ensures HostPayload(s, c, h) == HostDTO(h.name, h.description, SortedTags(h.tags), h.ip, RowPayloads(c, s.methods, h.id))
  {
    ValidIsReadable(s, c);
    ExportReadsEveryRow(s, c, h, s.methods);
  }

  /** Hence nothing of a well-formed store is missing from its export. */
  lemma {:induction false} NothingIsLeftOut(s: Store, c: Crypto, hosts: seq<Host>)
    requires Valid(s, c)
    ensures Warnings(s, c, hosts) == []
  {
    if hosts != [] {
      NothingIsLeftOut(s, c, hosts[..|hosts| - 1]);
      ValidIsReadable(s, c);
      ExportReadsEveryRow(s, c, hosts[|hosts| - 1], s.methods);
    }
  }
}
