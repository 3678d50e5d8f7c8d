/** Choosing a replacement for a resource, remembering the choice, keeping decoded
    images within a byte budget, and reloading packs behind the caller's back. */
module VisualOverrides {
  import opened VisualKeys
  import opened Wrappers

  /** Zero, an empty text or `None` in a rule means that the field is not looked at. */
  datatype Rule = Rule(
    kind: Kind, machineId: string, format: Format, sourceLabel: string,
    bank: Option<nat>, address: Option<nat>, index: Option<nat>, paletteRegister: string, paletteValue: Option<nat>,
    sourceHash: Hash, paletteAwareHash: Hash, paletteHash: Hash, decodedHash: Hash, width: nat, height: nat,
    specificity: int, order: nat, assets: seq<string>)

  /** `stamp` stands for the manifest and asset write times seen at loading. */
  datatype Pack = Pack(path: string, target: string, targets: seq<string>, priority: int, rules: seq<Rule>, stamp: int)

  // ----- Matching -----

  predicate Targets(pack: Pack, machineId: string) {
    if pack.targets == [] then pack.target == "" || pack.target == machineId else machineId in pack.targets
  }

  predicate Wants(field: Option<nat>, value: nat) {
    field.None? || field.value == value
  }

  predicate Matches(rule: Rule, d: Descriptor) {
    && rule.kind == d.kind
    && (rule.machineId == "" || rule.machineId == d.machineId)
    && (rule.format == UnknownFormat || rule.format == d.format)
    && (rule.sourceLabel == "" || rule.sourceLabel == d.sourceLabel)
    && Wants(rule.bank, d.bank) && Wants(rule.address, d.address) && Wants(rule.index, d.index)
    && (rule.paletteRegister == "" || rule.paletteRegister == d.paletteRegister)
    && Wants(rule.paletteValue, d.paletteValue)
    && (rule.sourceHash == 0 || rule.sourceHash == d.sourceHash)
    && (rule.paletteAwareHash == 0 || rule.paletteAwareHash == d.paletteAwareHash)
    && (rule.paletteHash == 0 || rule.paletteHash == d.paletteHash)
    && (rule.decodedHash == 0 || rule.decodedHash == d.contentHash)
    && !(rule.sourceHash == 0 && rule.paletteAwareHash == 0 && rule.decodedHash == 0)
    && (rule.width == 0 || rule.width == d.width)
    && (rule.height == 0 || rule.height == d.height)
  }

  /** A field left out, or the descriptor's own. */
  predicate Open<T(==)>(wanted: T, unset: T, actual: T) {
    wanted != unset ==> wanted == actual
  }

  /** A rule matches exactly the descriptors of its kind with which it agrees on every
      field it names, provided that it names the hash of the source, the decoded image, or
      source and palette together. */
  lemma MatchesExactly(rule: Rule, d: Descriptor)
    ensures Matches(rule, d) <==>
              && rule.kind == d.kind
              && Open(rule.machineId, "", d.machineId) && Open(rule.format, UnknownFormat, d.format)
              && Open(rule.sourceLabel, "", d.sourceLabel) && Open(rule.paletteRegister, "", d.paletteRegister)
              && Open(rule.bank, None, Some(d.bank)) && Open(rule.address, None, Some(d.address))
              && Open(rule.index, None, Some(d.index)) && Open(rule.paletteValue, None, Some(d.paletteValue))
              && Open(rule.width, 0, d.width) && Open(rule.height, 0, d.height)
              && Open(rule.sourceHash, 0, d.sourceHash) && Open(rule.decodedHash, 0, d.contentHash)
              && Open(rule.paletteHash, 0, d.paletteHash) && Open(rule.paletteAwareHash, 0, d.paletteAwareHash)
              && (rule.sourceHash != 0 || rule.decodedHash != 0 || rule.paletteAwareHash != 0)
  {
  }

  /** A pack that lists machines is for those; otherwise for the one it names, or for all. */
  lemma TargetsExactly(pack: Pack, machineId: string)
    ensures pack.targets != [] ==> (Targets(pack, machineId) <==> machineId in pack.targets)
    ensures pack.targets == [] && pack.target != "" ==> (Targets(pack, machineId) <==> machineId == pack.target)
    ensures pack.targets == [] && pack.target == "" ==> Targets(pack, machineId)
  {
  }

  // ----- The best rule -----

  predicate Candidate(packs: seq<Pack>, d: Descriptor, p: nat, r: nat) {
    p < |packs| && Targets(packs[p], d.machineId) && r < |packs[p].rules| && Matches(packs[p].rules[r], d)
  }

  /** Specificity first, then the pack's priority, then the rule's own order. */
  predicate Beats(pack: Pack, rule: Rule, than: Pack, thanRule: Rule) {
    || rule.specificity > thanRule.specificity
    || (rule.specificity == thanRule.specificity && pack.priority > than.priority)
    || (rule.specificity == thanRule.specificity && pack.priority == than.priority && rule.order < thanRule.order)
  }

  predicate Before(p: nat, r: nat, p': nat, r': nat) {
    p < p' || (p == p' && r < r')
  }

  /** Beaten by no candidate, and beating every candidate that comes earlier. */
  ghost predicate BestAmong(packs: seq<Pack>, d: Descriptor, p: nat, r: nat, endP: nat, endR: nat) {
    && Candidate(packs, d, p, r) && Before(p, r, endP, endR)
    && forall p': nat, r': nat :: Candidate(packs, d, p', r') && Before(p', r', endP, endR) ==>
         && !Beats(packs[p'], packs[p'].rules[r'], packs[p], packs[p].rules[r])
         && (Before(p', r', p, r) ==> Beats(packs[p], packs[p].rules[r], packs[p'], packs[p'].rules[r']))
  }

  ghost predicate IsBest(packs: seq<Pack>, d: Descriptor, p: nat, r: nat) {
    BestAmong(packs, d, p, r, |packs|, 0)
  }

  ghost predicate NoneAmong(packs: seq<Pack>, d: Descriptor, endP: nat, endR: nat) {
    forall p: nat, r: nat :: Before(p, r, endP, endR) ==> !Candidate(packs, d, p, r)
  }

  /** What the scan has found so far. */
  ghost predicate Found(packs: seq<Pack>, d: Descriptor, best: Option<(nat, nat)>, endP: nat, endR: nat) {
    match best
    case None => NoneAmong(packs, d, endP, endR)
    case Some((p, r)) => BestAmong(packs, d, p, r, endP, endR)
  }

  lemma SkipPack(packs: seq<Pack>, d: Descriptor, best: Option<(nat, nat)>, p: nat)
    requires p < |packs| && !Targets(packs[p], d.machineId) && Found(packs, d, best, p, 0)
    ensures Found(packs, d, best, p + 1, 0)
  {
  }

  lemma NextPack(packs: seq<Pack>, d: Descriptor, best: Option<(nat, nat)>, p: nat)
    requires p < |packs| && Found(packs, d, best, p, |packs[p].rules|)
    ensures Found(packs, d, best, p + 1, 0)
  {
  }

  lemma SkipRule(packs: seq<Pack>, d: Descriptor, best: Option<(nat, nat)>, p: nat, r: nat)
    requires !Candidate(packs, d, p, r) && Found(packs, d, best, p, r)
    ensures Found(packs, d, best, p, r + 1)
  {
  }

  lemma BeatsIsTransitive(a: Pack, ar: Rule, b: Pack, br: Rule, c: Pack, cr: Rule)
    requires Beats(a, ar, b, br)
    ensures !Beats(c, cr, b, br) ==> Beats(a, ar, c, cr)
    ensures !Beats(b, br, a, ar)
  {
  }

  lemma KeepBest(packs: seq<Pack>, d: Descriptor, best: (nat, nat), p: nat, r: nat)
    requires Candidate(packs, d, p, r) && Found(packs, d, Some(best), p, r)
    requires !Beats(packs[p], packs[p].rules[r], packs[best.0], packs[best.0].rules[best.1])
    ensures Found(packs, d, Some(best), p, r + 1)
  {
    hide Beats, Candidate;
  }

  lemma TakeBest(packs: seq<Pack>, d: Descriptor, best: Option<(nat, nat)>, p: nat, r: nat)
    requires Candidate(packs, d, p, r) && Found(packs, d, best, p, r)
    requires best.Some? ==> Beats(packs[p], packs[p].rules[r], packs[best.value.0], packs[best.value.0].rules[best.value.1])
    ensures Found(packs, d, Some((p, r)), p, r + 1)
  {
    hide Matches, Targets;
    forall p': nat, r': nat | Candidate(packs, d, p', r') && Before(p', r', p, r + 1)
      ensures !Beats(packs[p'], packs[p'].rules[r'], packs[p], packs[p].rules[r])
      ensures Before(p', r', p, r) ==> Beats(packs[p], packs[p].rules[r], packs[p'], packs[p'].rules[r'])
    {
      if Before(p', r', p, r) {
        var (bp, br) := best.value;
        BeatsIsTransitive(packs[p], packs[p].rules[r], packs[bp], packs[bp].rules[br], packs[p'], packs[p'].rules[r']);
        BeatsIsTransitive(packs[p], packs[p].rules[r], packs[p'], packs[p'].rules[r'], packs[p], packs[p].rules[r]);
      }
    }
  }

  /** There is at most one best position. */
  lemma BestIsUnique(packs: seq<Pack>, d: Descriptor, p: nat, r: nat, p': nat, r': nat)
    requires IsBest(packs, d, p, r) && IsBest(packs, d, p', r')
    ensures p == p' && r == r'
  {
    hide Matches, Targets, Beats;
  }

  /** The best rule has the highest specificity of all that match; of those the highest
      pack priority; of those the lowest order; and of those it comes first. */
  lemma BestIsMaximal(packs: seq<Pack>, d: Descriptor, p: nat, r: nat, p': nat, r': nat)
    requires IsBest(packs, d, p, r) && Candidate(packs, d, p', r')
    ensures Candidate(packs, d, p, r)
    ensures var best, other := packs[p].rules[r], packs[p'].rules[r'];
            && other.specificity <= best.specificity
            && (other.specificity == best.specificity ==> packs[p'].priority <= packs[p].priority)
            && (other.specificity == best.specificity && packs[p'].priority == packs[p].priority ==> best.order <= other.order)
            && (other.specificity == best.specificity && packs[p'].priority == packs[p].priority && best.order == other.order ==>
                  p < p' || (p == p' && r <= r'))
  {
    hide Matches, Targets;
  }

  /** The scan of all rules of all packs that target the machine. */
  method Scan(packs: seq<Pack>, d: Descriptor) returns (best: Option<(nat, nat)>)
    ensures best.None? <==> forall p: nat, r: nat :: !Candidate(packs, d, p, r)
    ensures best.Some? ==> IsBest(packs, d, best.value.0, best.value.1)
  {
    hide Matches, Targets, Beats;
    best := None;
    var p := 0;
    while p < |packs|
      invariant 0 <= p <= |packs| && Found(packs, d, best, p, 0)
    {
      if !Targets(packs[p], d.machineId) {
        SkipPack(packs, d, best, p);
      } else {
        best := ScanPack(packs, d, best, p);
      }
      p := p + 1;
    }
  }

  method ScanPack(packs: seq<Pack>, d: Descriptor, before: Option<(nat, nat)>, p: nat) returns (best: Option<(nat, nat)>)
    requires p < |packs| && Targets(packs[p], d.machineId) && Found(packs, d, before, p, 0)
    ensures Found(packs, d, best, p + 1, 0)
  {
    hide Matches, Targets, Beats;
    var pack := packs[p];
    best := before;
    var r := 0;
    while r < |pack.rules|
      invariant 0 <= r <= |pack.rules| && Found(packs, d, best, p, r)
    {
      var rule := pack.rules[r];
      if !Matches(rule, d) {
        SkipRule(packs, d, best, p, r);
      } else if best.None? || Beats(pack, rule, packs[best.value.0], packs[best.value.0].rules[best.value.1]) {
        TakeBest(packs, d, best, p, r);
        best := Some((p, r));
      } else {
        KeepBest(packs, d, best.value, p, r);
      }
      r := r + 1;
    }
    NextPack(packs, d, best, p);
  }

  /** The pack and rule a fresh scan would choose. */
  datatype Choice = Choice(pack: Pack, rule: Rule)

  ghost predicate Chosen(packs: seq<Pack>, d: Descriptor, choice: Choice) {
    exists p: nat, r: nat :: IsBest(packs, d, p, r) && choice == Choice(packs[p], packs[p].rules[r])
  }

  lemma ChosenOnce(packs: seq<Pack>, d: Descriptor, a: Choice, b: Choice)
    requires Chosen(packs, d, a) && Chosen(packs, d, b)
    ensures a == b
  {
    hide Matches, Targets, Beats;
    var p: nat, r: nat :| IsBest(packs, d, p, r) && a == Choice(packs[p], packs[p].rules[r]);
    var p': nat, r': nat :| IsBest(packs, d, p', r') && b == Choice(packs[p'], packs[p'].rules[r']);
    BestIsUnique(packs, d, p, r, p', r');
  }
}
