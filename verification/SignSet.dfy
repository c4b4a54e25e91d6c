/** Deciding which signatures of an RRset are retained, dropped or made afresh (`signset`). */
module SignSet {
  import opened Options
  import opened Names

  // ----- time, on 32 bits

  const WORD: nat := 0x1_0000_0000
  const HALF: nat := 0x8000_0000

  type Time = t: nat | t < WORD

  function Plus(a: Time, b: Time): Time {
    if a + b < WORD then a + b else a + b - WORD
  }

  function Minus(a: Time, b: Time): Time {
    if a >= b then a - b else a + WORD - b
  }

  /** `isc_serial_gt`: the difference, read as a signed 32-bit number, is positive. */
  predicate Gt(a: Time, b: Time) {
    0 < Minus(a, b) < HALF
  }

  /** `isc_serial_lt`: false, too, of two times half the circle apart. */
  predicate Lt(a: Time, b: Time) {
    Minus(a, b) > HALF
  }

  /** Two times less than half the circle apart. */
  ghost predicate Near(a: int, b: int) {
    -(HALF as int) < a - b < HALF
  }

  lemma {:induction false} Wrapped(a: nat, b: nat)
    requires Near(a, b)
    ensures a >= b ==> Minus(a % WORD, b % WORD) == a - b
    ensures a < b ==> Minus(a % WORD, b % WORD) == WORD + a - b
  {
    var p, q := a / WORD, b / WORD;
    assert a == p * WORD + a % WORD && b == q * WORD + b % WORD;
    assert -1 <= p - q <= 1;
  }

  /** On the numbers of seconds themselves: comparing them on 32 bits, over any number of turns, gives
  their order as long as they are near. */
  lemma {:induction false} SerialOrder(a: nat, b: nat)
    requires Near(a, b)
    ensures Gt(a % WORD, b % WORD) <==> a > b
    ensures Lt(a % WORD, b % WORD) <==> a < b
    ensures a >= b ==> Minus(a % WORD, b % WORD) == a - b
  {
    Wrapped(a, b);
  }

  lemma {:induction false} SerialSum(a: nat, b: Time)
    ensures Plus(a % WORD, b) == (a + b) % WORD
  {
    var p := a / WORD;
    assert a == p * WORD + a % WORD;
    if a % WORD + b < WORD {
      assert a + b == p * WORD + (a % WORD + b);
    } else {
      assert a + b == (p + 1) * WORD + (a % WORD + b - WORD);
    }
  }

  /** A key of the zone's key list.  `index` is its place in the arrays of `signset`; `id`, `alg` and
  `owner` are what a signature names it by. */
  datatype Key = Key(
    index: nat, id: nat, alg: nat, owner: Name, material: nat,
    zoneKey: bool, ksk: bool, revoked: bool,
    forceSign: bool, hintSign: bool, forcePublish: bool, hintPublish: bool, hintRemove: bool)

  /** What a key file on disk adds to the name, id and algorithm it was asked for by. */
  datatype KeyFile = KeyFile(material: nat, zoneKey: bool, ksk: bool, revoked: bool)

  /** A signature record. */
  datatype Sig = Sig(id: nat, alg: nat, signer: Name, inception: Time, expiry: Time, originalTtl: nat, value: nat)

  /** The RRset to sign: its TTL, and whether it is the DNSKEY RRset of the zone's origin. */
  datatype RRset = RRset(ttl: nat, apexKeys: bool)

  /** The settings of a run.  `disk` is the key directory, `expects` says where a DNSKEY RRset would be
  found in the zone, `verifies` is the cryptographic check against the RRset at hand, and `expiry` and
  `seal` give the (jittered) expiry and the value of the `n`th record added. */
  datatype Config = Config(
    origin: Name, now: Time, cycle: Time, start: Time, end: Time,
    removeOrphans: bool, ignoreKskFlag: bool, kskOnly: bool,
    disk: (Name, nat, nat) -> Option<KeyFile>,
    expects: Name -> bool,
    verifies: (nat, Sig) -> bool,
    expiry: nat -> Time,
    seal: (nat, nat) -> nat)

  /** The TTL the signatures are to have. */
  function RecordTtl(c: Config, rrset: RRset): nat {
    var period := Minus(c.end, c.start);
    if rrset.ttl < period then rrset.ttl else period
  }

  // ----- keys

  predicate Signing(k: Key) {
    k.forceSign || k.hintSign
  }

  predicate Published(k: Key) {
    (k.forcePublish || k.hintPublish) && !k.hintRemove
  }

  predicate ZoneKey(c: Config, k: Key) {
    k.owner == c.origin && k.zoneKey
  }

  predicate IsZsk(c: Config, k: Key) {
    c.ignoreKskFlag || !k.ksk
  }

  predicate Matches(k: Key, s: Sig) {
    s.id == k.id && s.alg == k.alg && s.signer == k.owner
  }

  /** The key list: each key carries its position. */
  predicate Indexed(keys: seq<Key>) {
    forall i :: 0 <= i < |keys| ==> keys[i].index == i
  }

  /** The position of the first key that may have made the signature. */
  function Owner(keys: seq<Key>, s: Sig): (r: Option<nat>)
    ensures r.Some? ==> r.value < |keys| && Matches(keys[r.value], s)
  {
    if keys == [] then None
    else
      var r := Owner(keys[..|keys| - 1], s);
      if r.Some? then r
      else if Matches(keys[|keys| - 1], s) then Some(|keys| - 1)
      else None
  }

  lemma {:induction false} OwnerIsFirst(keys: seq<Key>, s: Sig)
    ensures Owner(keys, s).None? ==> forall i :: 0 <= i < |keys| ==> !Matches(keys[i], s)
    ensures Owner(keys, s).Some? ==> forall i :: 0 <= i < Owner(keys, s).value ==> !Matches(keys[i], s)
    ensures forall k: Key :: Matches(k, s) <==> k.id == s.id && k.alg == s.alg && k.owner == s.signer
  {
    if keys != [] {
      OwnerIsFirst(keys[..|keys| - 1], s);
    }
  }

  lemma {:induction false} OwnerWithOneMore(keys: seq<Key>, k: Key, s: Sig)
    ensures Owner(keys, s).Some? ==> Owner(keys + [k], s) == Owner(keys, s)
    ensures Owner(keys, s).None? ==> Owner(keys + [k], s) == if Matches(k, s) then Some(|keys|) else None
  {
    assert (keys + [k])[..|keys|] == keys;
  }

  function Loaded(f: KeyFile, s: Sig, index: nat): Key {
    Key(index, s.id, s.alg, s.signer, f.material, f.zoneKey, f.ksk, f.revoked, false, false, false, false, false)
  }

  /** The key list after looking up the maker of a signature. */
  function Known(c: Config, keys: seq<Key>, s: Sig): seq<Key> {
    if Owner(keys, s).Some? then keys
    else
      var f := c.disk(s.signer, s.id, s.alg);
      if f.Some? then keys + [Loaded(f.value, s, |keys|)] else keys
  }

  ghost function KnownAll(c: Config, keys: seq<Key>, sigs: seq<Sig>): seq<Key> {
    if sigs == [] then keys else Known(c, KnownAll(c, keys, sigs[..|sigs| - 1]), sigs[|sigs| - 1])
  }

  // ----- the verdict on one signature

  predicate Future(c: Config, s: Sig) {
    Lt(c.now, s.inception)
  }

  predicate Expired(c: Config, maker: Option<Key>, s: Sig) {
    if maker.Some? && Signing(maker.value) then Gt(Plus(c.now, c.cycle), s.expiry) else Gt(c.now, s.expiry)
  }

  predicate Sound(c: Config, rrset: RRset, maker: Key, s: Sig) {
    !Expired(c, Some(maker), s) && s.originalTtl == rrset.ttl && c.verifies(maker.material, s)
  }

  function Maker(keys: seq<Key>, s: Sig): Option<Key> {
    var o := Owner(keys, s);
    if o.Some? then Some(keys[o.value]) else None
  }

  /** A signature stays exactly if its period is not inverted, it has not expired, and: when its maker
  is unknown or it is future-dated, orphans are kept and no key was expected; when its maker signs, or
  is a key of this zone that may stay, it matches the RRset; any other maker need only be allowed to stay. */
  predicate Retained(c: Config, rrset: RRset, maker: Option<Key>, s: Sig) {
    && !Gt(s.inception, s.expiry)
    && !Expired(c, maker, s)
    && (if maker.None? || Future(c, s) then
          !c.removeOrphans && (Future(c, s) || !c.expects(s.signer))
        else if Signing(maker.value) then Sound(c, rrset, maker.value, s)
        else
          && (Published(maker.value) || !c.removeOrphans)
          && (ZoneKey(c, maker.value) ==> Sound(c, rrset, maker.value, s)))
  }

  /** A signature is replaced when a signing key made it and it no longer serves. */
  predicate Replaced(c: Config, rrset: RRset, maker: Option<Key>, s: Sig) {
    && maker.Some? && Signing(maker.value)
    && !Gt(s.inception, s.expiry) && !Future(c, s)
    && !Sound(c, rrset, maker.value, s)
  }

  // ----- the verdict, in plain numbers and flags

  /** Times in seconds, of which the program sees the lower 32 bits. */
  datatype Clock = Clock(now: nat, inception: nat, expiry: nat)

  ghost predicate Shows(c: Config, s: Sig, t: Clock) {
    && c.now == t.now % WORD && s.inception == t.inception % WORD && s.expiry == t.expiry % WORD
    && Near(t.inception, t.expiry) && Near(t.now, t.expiry) && Near(t.now + c.cycle, t.expiry) && Near(t.now, t.inception)
  }

  /** A signature is retained exactly if its period is right, it will not have expired (at the end of the
  coming cycle, if a signing key made it), and: it is future-dated or of unknown make and orphans are
  kept; or it is right for the RRset; or it is not for this zone's keys to judge. */
  lemma {:induction false} RetainedExactly(c: Config, rrset: RRset, maker: Option<Key>, s: Sig, t: Clock)
    requires Shows(c, s, t)
    ensures Retained(c, rrset, maker, s) <==>
            && t.inception <= t.expiry
            && (if maker.Some? && (maker.value.forceSign || maker.value.hintSign) then t.now + c.cycle <= t.expiry
                else t.now <= t.expiry)
            && (if maker.None? then !c.removeOrphans && (t.now < t.inception || !c.expects(s.signer))
                else if t.now < t.inception then !c.removeOrphans
                else
                  var k := maker.value;
                  var right := s.originalTtl == rrset.ttl && c.verifies(k.material, s);
                  if k.forceSign || k.hintSign then right
                  else
                    && (((k.forcePublish || k.hintPublish) && !k.hintRemove) || !c.removeOrphans)
                    && (k.owner == c.origin && k.zoneKey ==> right))
  {
    SerialOrder(t.inception, t.expiry);
    SerialOrder(t.now, t.expiry);
    SerialOrder(t.now, t.inception);
    SerialSum(t.now, c.cycle);
    SerialOrder(t.now + c.cycle, t.expiry);
  }

  /** A signature is replaced exactly if a signing key made it, its period is right and has begun, and it
  will have expired, has another TTL or does not verify. */
  lemma {:induction false} ReplacedExactly(c: Config, rrset: RRset, maker: Option<Key>, s: Sig, t: Clock)
    requires Shows(c, s, t)
    ensures Replaced(c, rrset, maker, s) <==>
            && maker.Some? && (maker.value.forceSign || maker.value.hintSign)
            && t.inception <= t.expiry && t.inception <= t.now
            && !(t.now + c.cycle <= t.expiry && s.originalTtl == rrset.ttl && c.verifies(maker.value.material, s))
  {
    SerialOrder(t.inception, t.expiry);
    SerialOrder(t.now, t.inception);
    SerialSum(t.now, c.cycle);
    SerialOrder(t.now + c.cycle, t.expiry);
  }

  /** The TTL is that of the RRset or the length of the new signatures' period, whichever is less. */
  lemma {:induction false} RecordTtlExactly(c: Config, rrset: RRset, start: nat, end: nat)
    requires c.start == start % WORD && c.end == end % WORD && start <= end && Near(start, end)
    ensures RecordTtl(c, rrset) == if rrset.ttl < end - start then rrset.ttl else end - start
  {
    SerialOrder(end, start);
  }

  /** The signature a key makes now. */
  function Fresh(c: Config, rrset: RRset, k: Key, n: nat): Sig {
    Sig(k.id, k.alg, k.owner, c.start, c.expiry(n), rrset.ttl, c.seal(k.index, n))
  }

  /** Whether a signing key that has no signature yet must make one. */
  predicate MustSign(c: Config, rrset: RRset, keys: seq<Key>, k: Key) {
    if rrset.apexKeys then
      || k.ksk
      || (IsZsk(c, k) && !c.kskOnly)
      || !exists i :: 0 <= i < |keys| && keys[i].alg == k.alg && !keys[i].revoked && keys[i].ksk
    else IsZsk(c, k)
  }

  // ----- the run over all signatures

  /** The keys found to be signing the RRset: they made a signature that stays or is replaced. */
  ghost predicate Marked(c: Config, rrset: RRset, keys: seq<Key>, sigs: seq<Sig>, j: nat) {
    exists s :: s in sigs && Owner(keys, s) == Some(j)
                && (Retained(c, rrset, Maker(keys, s), s) || Replaced(c, rrset, Maker(keys, s), s))
  }

  ghost predicate Outdated(c: Config, rrset: RRset, keys: seq<Key>, sigs: seq<Sig>, j: nat) {
    exists s :: s in sigs && Owner(keys, s) == Some(j) && Replaced(c, rrset, Maker(keys, s), s)
  }

  /** The signatures that stay. */
  ghost function Kept(c: Config, rrset: RRset, keys: seq<Key>, sigs: seq<Sig>): set<Sig> {
    set s | s in sigs && Retained(c, rrset, Maker(keys, s), s)
  }

  /** The keys that make signatures: a key of whose signatures one is replaced, and, among the first
  `n`, a signing key that must sign and has no signature. */
  ghost function Makers(c: Config, rrset: RRset, keys: seq<Key>, sigs: seq<Sig>, n: nat): set<nat> {
    set j | 0 <= j < |keys| &&
            (Outdated(c, rrset, keys, sigs, j)
             || (j < n && Signing(keys[j]) && !Marked(c, rrset, keys, sigs, j) && MustSign(c, rrset, keys, keys[j])))
  }

  /** A signature made: by which key, and as which record added. */
  datatype Made = Made(key: nat, n: nat)

  ghost function Elements(s: seq<Sig>): set<Sig> {
    set x | x in s
  }

  ghost function MadeBy(made: set<Made>): set<nat> {
    set m | m in made :: m.key
  }

  ghost function FreshOnes(c: Config, rrset: RRset, keys: seq<Key>, made: set<Made>): set<Sig> {
    set m | m in made && m.key < |keys| :: Fresh(c, rrset, keys[m.key], m.n)
  }

  /** The deletions: what does not stay, and everything if the TTL is to change. */
  ghost function Deletions(c: Config, rrset: RRset, keys: seq<Key>, sigs: seq<Sig>, sigTtl: nat): set<Sig> {
    if sigTtl == RecordTtl(c, rrset) then Elements(sigs) - Kept(c, rrset, keys, sigs) else Elements(sigs)
  }

  /** The additions: what was made, and what stays if its TTL is to change. */
  ghost function Additions(c: Config, rrset: RRset, keys: seq<Key>, sigs: seq<Sig>, sigTtl: nat, made: set<Made>): set<Sig> {
    FreshOnes(c, rrset, keys, made) + if sigTtl == RecordTtl(c, rrset) then {} else Kept(c, rrset, keys, sigs)
  }

  /** The differences found after looking at `sigs` and, for missing signatures, the first `n` keys. */
  ghost predicate Outcome(c: Config, rrset: RRset, keys: seq<Key>, sigs: seq<Sig>, sigTtl: nat, n: nat,
                          del: seq<Sig>, add: seq<Sig>, made: set<Made>) {
    && Elements(del) == Deletions(c, rrset, keys, sigs, sigTtl)
    && Elements(add) == Additions(c, rrset, keys, sigs, sigTtl, made)
    && MadeBy(made) == Makers(c, rrset, keys, sigs, n)
  }

  // ----- the key list grows, but its answers do not change

  lemma {:induction false} KnownAllGrows(c: Config, keys: seq<Key>, sigs: seq<Sig>)
    ensures keys <= KnownAll(c, keys, sigs)
    ensures |KnownAll(c, keys, sigs)| <= |keys| + |sigs|
    ensures Indexed(keys) ==> Indexed(KnownAll(c, keys, sigs))
    ensures forall j :: |keys| <= j < |KnownAll(c, keys, sigs)| ==>
                          !KnownAll(c, keys, sigs)[j].forceSign && !KnownAll(c, keys, sigs)[j].hintSign
  {
    if sigs != [] {
      KnownAllGrows(c, keys, sigs[..|sigs| - 1]);
    }
  }

  /** What was found stays found; what was neither in the list nor on disk is not found later. */
  lemma {:induction false} OwnerStable(c: Config, keys: seq<Key>, s: Sig, later: Sig)
    requires Owner(keys, s).Some? || c.disk(s.signer, s.id, s.alg).None?
    ensures Owner(Known(c, keys, later), s) == Owner(keys, s)
    ensures Maker(Known(c, keys, later), s) == Maker(keys, s)
  {
    var f := c.disk(later.signer, later.id, later.alg);
    if Owner(keys, later).None? && f.Some? {
      OwnerWithOneMore(keys, Loaded(f.value, later, |keys|), s);
    }
  }

  /** A key from disk joins the end of the list as what its file says, neither signing nor published. */
  lemma {:induction false} LoadedExactly(c: Config, keys: seq<Key>, s: Sig)
    requires Owner(keys, s).None? && c.disk(s.signer, s.id, s.alg).Some?
    ensures var all, f := Known(c, keys, s), c.disk(s.signer, s.id, s.alg).value;
            && |all| == |keys| + 1 && all[..|keys|] == keys
            && var k := all[|keys|];
            && k.index == |keys| && k.id == s.id && k.alg == s.alg && k.owner == s.signer
            && k.material == f.material && k.zoneKey == f.zoneKey && k.ksk == f.ksk && k.revoked == f.revoked
            && !k.forceSign && !k.hintSign && !k.forcePublish && !k.hintPublish && !k.hintRemove
  {
  }

  lemma {:induction false} Looked(c: Config, keys: seq<Key>, s: Sig)
    ensures Owner(Known(c, keys, s), s).Some? || c.disk(s.signer, s.id, s.alg).None?
  {
    var f := c.disk(s.signer, s.id, s.alg);
    if Owner(keys, s).None? && f.Some? {
      OwnerWithOneMore(keys, Loaded(f.value, s, |keys|), s);
    }
  }

  lemma {:induction false} Prefixes(sigs: seq<Sig>, i: nat, n: nat)
    requires i <= n <= |sigs|
    ensures sigs[..n][..i] == sigs[..i] && sigs[..|sigs|] == sigs
    ensures i < |sigs| ==> sigs[..i + 1] == sigs[..i] + [sigs[i]]
  {
  }

  ghost predicate Settled(c: Config, then_: seq<Key>, final: seq<Key>, s: Sig) {
    && Owner(then_, s) == Owner(final, s) && Maker(then_, s) == Maker(final, s)
    && (Owner(final, s).Some? || c.disk(s.signer, s.id, s.alg).None?)
  }

  /** The maker found for the `i`th signature is the one the final list gives. */
  lemma {:induction false} MakerIsFinal(c: Config, keys: seq<Key>, sigs: seq<Sig>, i: nat)
    requires i < |sigs|
    ensures Settled(c, KnownAll(c, keys, sigs[..i + 1]), KnownAll(c, keys, sigs), sigs[i])
    decreases |sigs|
  {
    var n := |sigs| - 1;
    var before := KnownAll(c, keys, sigs[..n]);
    assert KnownAll(c, keys, sigs) == Known(c, before, sigs[n]);
    if i == n {
      Prefixes(sigs, i, n + 1);
      Looked(c, before, sigs[n]);
    } else {
      Prefixes(sigs, i + 1, n);
      MakerIsFinal(c, keys, sigs[..n], i);
      SettledStep(c, KnownAll(c, keys, sigs[..i + 1]), before, sigs[i], sigs[n]);
    }
  }

  lemma {:induction false} SettledStep(c: Config, then_: seq<Key>, final: seq<Key>, s: Sig, later: Sig)
    requires Settled(c, then_, final, s)
    ensures Settled(c, then_, Known(c, final, later), s)
  {
    OwnerStable(c, final, s, later);
  }

  // ----- one signature more

  lemma {:induction false} KeptStep(c: Config, rrset: RRset, keys: seq<Key>, sigs: seq<Sig>, s: Sig)
    ensures Kept(c, rrset, keys, sigs + [s]) ==
            if Retained(c, rrset, Maker(keys, s), s) then Kept(c, rrset, keys, sigs) + {s}
            else Kept(c, rrset, keys, sigs) - {s}
  {
  }

  lemma {:induction false} ElementsStep(sigs: seq<Sig>, s: Sig)
    ensures Elements(sigs + [s]) == Elements(sigs) + {s}
  {
  }

  lemma {:induction false} MarkedStep(c: Config, rrset: RRset, keys: seq<Key>, sigs: seq<Sig>, s: Sig, j: nat)
    ensures Marked(c, rrset, keys, sigs + [s], j) <==>
            || Marked(c, rrset, keys, sigs, j)
            || (Owner(keys, s) == Some(j) && (Retained(c, rrset, Maker(keys, s), s) || Replaced(c, rrset, Maker(keys, s), s)))
    ensures Outdated(c, rrset, keys, sigs + [s], j) <==>
            Outdated(c, rrset, keys, sigs, j) || (Owner(keys, s) == Some(j) && Replaced(c, rrset, Maker(keys, s), s))
  {
    assert forall x :: x in sigs + [s] <==> x in sigs || x == s;
    assert s in sigs + [s];
  }

  lemma {:induction false} MakersStep(c: Config, rrset: RRset, keys: seq<Key>, sigs: seq<Sig>, s: Sig)
    ensures Makers(c, rrset, keys, sigs + [s], 0) ==
            if Replaced(c, rrset, Maker(keys, s), s) then Makers(c, rrset, keys, sigs, 0) + {Owner(keys, s).value}
            else Makers(c, rrset, keys, sigs, 0)
  {
    forall j: nat {
      MarkedStep(c, rrset, keys, sigs, s, j);
    }
  }

  lemma {:induction false} MadeStep(c: Config, rrset: RRset, keys: seq<Key>, made: set<Made>, j: nat, n: nat)
    requires j < |keys|
    ensures FreshOnes(c, rrset, keys, made + {Made(j, n)}) == FreshOnes(c, rrset, keys, made) + {Fresh(c, rrset, keys[j], n)}
    ensures MadeBy(made + {Made(j, n)}) == MadeBy(made) + {j}
  {
    var m := Made(j, n);
    assert m in made + {m};
    assert forall x :: x in made ==> x in made + {m};
  }

  /** A signature that stays, or goes without being replaced. */
  lemma {:induction false} OutcomeStep(c: Config, rrset: RRset, keys: seq<Key>, sigs: seq<Sig>, sigTtl: nat,
                                       del: seq<Sig>, add: seq<Sig>, made: set<Made>, s: Sig)
    requires Outcome(c, rrset, keys, sigs, sigTtl, 0, del, add, made)
    requires !Replaced(c, rrset, Maker(keys, s), s)
    ensures var keep, same := Retained(c, rrset, Maker(keys, s), s), sigTtl == RecordTtl(c, rrset);
            Outcome(c, rrset, keys, sigs + [s], sigTtl, 0, if keep && same then del else del + [s],
                    if keep && !same then add + [s] else add, made)
  {
    KeptStep(c, rrset, keys, sigs, s);
    ElementsStep(sigs, s);
    ElementsStep(del, s);
    ElementsStep(add, s);
    MakersStep(c, rrset, keys, sigs, s);
  }

  /** A signature that is replaced. */
  lemma {:induction false} ReplacedStep(c: Config, rrset: RRset, keys: seq<Key>, sigs: seq<Sig>, sigTtl: nat,
                                        del: seq<Sig>, add: seq<Sig>, made: set<Made>, s: Sig, n: nat)
    requires Outcome(c, rrset, keys, sigs, sigTtl, 0, del, add, made)
    requires Replaced(c, rrset, Maker(keys, s), s)
    ensures var j := Owner(keys, s).value;
            Outcome(c, rrset, keys, sigs + [s], sigTtl, 0, del + [s],
                    add + [Fresh(c, rrset, keys[j], n)], made + {Made(j, n)})
  {
    var j := Owner(keys, s).value;
    KeptStep(c, rrset, keys, sigs, s);
    ElementsStep(sigs, s);
    ElementsStep(del, s);
    ElementsStep(add, Fresh(c, rrset, keys[j], n));
    MakersStep(c, rrset, keys, sigs, s);
    MadeStep(c, rrset, keys, made, j, n);
  }

  /** The key at `j` signs, if it is found to have no signature. */
  lemma {:induction false} MissingStep(c: Config, rrset: RRset, keys: seq<Key>, sigs: seq<Sig>, sigTtl: nat,
                                       del: seq<Sig>, add: seq<Sig>, made: set<Made>, j: nat, n: nat)
    requires Outcome(c, rrset, keys, sigs, sigTtl, j, del, add, made) && j < |keys|
    ensures var signs := Signing(keys[j]) && !Marked(c, rrset, keys, sigs, j) && MustSign(c, rrset, keys, keys[j]);
            Outcome(c, rrset, keys, sigs, sigTtl, j + 1, del, if signs then add + [Fresh(c, rrset, keys[j], n)] else add,
                    if signs then made + {Made(j, n)} else made)
  {
    MakersNext(c, rrset, keys, sigs, j);
    ElementsStep(add, Fresh(c, rrset, keys[j], n));
    MadeStep(c, rrset, keys, made, j, n);
  }

  // ----- signset

  /** The key list shared by the signing threads. */
  class KeyList {
    var keylist: seq<Key>
    var keycount: nat

    ghost predicate Valid()
      reads this
    {
      keycount == |keylist| && Indexed(keylist)
    }

    /** `keythatsigned_unlocked`. */
    method KeyThatSignedUnlocked(s: Sig) returns (key: Option<Key>)
      ensures key == Maker(keylist, s)
    {
      var i := 0;
      while i < |keylist|
        invariant 0 <= i <= |keylist| && Owner(keylist[..i], s) == None
      {
        assert keylist[..i + 1] == keylist[..i] + [keylist[i]];
        OwnerWithOneMore(keylist[..i], keylist[i], s);
        if Matches(keylist[i], s) {
          OwnerOfLonger(keylist, s, i + 1);
          return Some(keylist[i]);
        }
        i := i + 1;
      }
      assert keylist[..i] == keylist;
      return None;
    }

    /** `keythatsigned`: look in the list, then on disk; a key from disk joins the list. */
    method KeyThatSigned(c: Config, s: Sig) returns (key: Option<Key>)
      requires Valid()
      modifies this
      ensures Valid() && keylist == Known(c, old(keylist), s)
      ensures key == Maker(keylist, s)
    {
      key := KeyThatSignedUnlocked(s);
      if key.Some? {
        return;
      }
      var f := c.disk(s.signer, s.id, s.alg);
      if f.None? {
        return None;
      }
      var k := Loaded(f.value, s, keycount);
      OwnerWithOneMore(keylist, k, s);
      keycount := keycount + 1;
      keylist := keylist + [k];
      return Some(k);
    }

    /** Whether the list has an unrevoked KSK of the key's algorithm. */
    method HaveKsk(k: Key) returns (have: bool)
      ensures have <==> k.ksk || exists i :: 0 <= i < |keylist| && keylist[i].alg == k.alg && !keylist[i].revoked && keylist[i].ksk
    {
      have := k.ksk;
      var i := 0;
      while i < |keylist|
        invariant 0 <= i <= |keylist|
        invariant have <==> k.ksk || exists m :: 0 <= m < i && keylist[m].alg == k.alg && !keylist[m].revoked && keylist[m].ksk
      {
        if keylist[i].alg == k.alg && !keylist[i].revoked && keylist[i].ksk {
          have := true;
        }
        i := i + 1;
      }
    }

    /** `signset`: the records to delete and to add so that the RRset is properly signed. */
    method SignSet(c: Config, rrset: RRset, sigs: seq<Sig>, sigTtl: nat)
      returns (del: seq<Sig>, add: seq<Sig>, ghost made: set<Made>)
      requires Valid()
      modifies this
      ensures Valid() && keylist == KnownAll(c, old(keylist), sigs)
      ensures Outcome(c, rrset, keylist, sigs, sigTtl, |keylist|, del, add, made)
    {
      ghost var keys0, keys := keylist, KnownAll(c, keylist, sigs);
      KnownAllGrows(c, keys0, sigs);
      var size := keycount + |sigs|;
      var wasSignedBy := new bool[size](_ => false);
      var nowSignedBy := new bool[size](_ => false);
      del, add, made := [], [], {};
      var i := 0;
      while i < |sigs|
        invariant 0 <= i <= |sigs| && Valid() && keylist == KnownAll(c, keys0, sigs[..i])
        invariant Outcome(c, rrset, keys, sigs[..i], sigTtl, 0, del, add, made)
        invariant Tallies(c, rrset, keys, sigs[..i], nowSignedBy[..])
      {
        Prefixes(sigs, i, i + 1);
        MakerIsFinal(c, keys0, sigs, i);
        KnownAllGrows(c, keys0, sigs[..i + 1]);
        del, add, made := Examine(c, rrset, sigs[i], sigTtl, wasSignedBy, nowSignedBy, del, add, made, keys, sigs[..i]);
        i := i + 1;
      }
      assert sigs[..i] == sigs;
      add, made := SignMissing(c, rrset, sigs, sigTtl, nowSignedBy, del, add, made);
    }

    /** The body of the loop over the signatures. */
    method Examine(c: Config, rrset: RRset, s: Sig, sigTtl: nat, wasSignedBy: array<bool>, nowSignedBy: array<bool>,
                   del0: seq<Sig>, add0: seq<Sig>, ghost made0: set<Made>, ghost keys: seq<Key>, ghost done: seq<Sig>)
      returns (del: seq<Sig>, add: seq<Sig>, ghost made: set<Made>)
      requires Valid() && wasSignedBy != nowSignedBy
      requires wasSignedBy.Length == nowSignedBy.Length >= |Known(c, keylist, s)|
      requires Maker(Known(c, keylist, s), s) == Maker(keys, s) && Owner(Known(c, keylist, s), s) == Owner(keys, s)
      requires Tallies(c, rrset, keys, done, nowSignedBy[..])
      requires Outcome(c, rrset, keys, done, sigTtl, 0, del0, add0, made0)
      modifies this, wasSignedBy, nowSignedBy
      ensures Valid() && keylist == Known(c, old(keylist), s)
      ensures Tallies(c, rrset, keys, done + [s], nowSignedBy[..])
      ensures Outcome(c, rrset, keys, done + [s], sigTtl, 0, del, add, made)
    {
      ghost var was := nowSignedBy[..];
      del, add, made := del0, add0, made0;
      var key := KeyThatSigned(c, s);
      assert key == Maker(keys, s);
      var keep, resign := Judge(c, rrset, key, s, wasSignedBy);
      if resign {
        ReplacedStep(c, rrset, keys, done, sigTtl, del, add, made, s, |add|);
      } else {
        OutcomeStep(c, rrset, keys, done, sigTtl, del, add, made, s);
      }
      if keep {
        if key.Some? {
          nowSignedBy[key.value.index] := true;
        }
        if sigTtl != RecordTtl(c, rrset) {
          del := del + [s];
          add := add + [s];
        }
      } else {
        del := del + [s];
      }
      if resign {
        made := made + {Made(key.value.index, |add|)};
        add := add + [Fresh(c, rrset, key.value, |add|)];
        nowSignedBy[key.value.index] := true;
      }
      TalliesStep(c, rrset, keys, done, was, s, nowSignedBy[..]);
    }

    /** The last loop of `signset`: signing keys that have no signature yet. */
    method SignMissing(c: Config, rrset: RRset, ghost sigs: seq<Sig>, ghost sigTtl: nat, nowSignedBy: array<bool>,
                       ghost del: seq<Sig>, add0: seq<Sig>, ghost made0: set<Made>)
      returns (add: seq<Sig>, ghost made: set<Made>)
      requires Valid() && |keylist| <= nowSignedBy.Length
      requires Tallies(c, rrset, keylist, sigs, nowSignedBy[..])
      requires Outcome(c, rrset, keylist, sigs, sigTtl, 0, del, add0, made0)
      ensures Outcome(c, rrset, keylist, sigs, sigTtl, |keylist|, del, add, made)
    {
      add, made := add0, made0;
      var j := 0;
      while j < |keylist|
        invariant 0 <= j <= |keylist|
        invariant Outcome(c, rrset, keylist, sigs, sigTtl, j, del, add, made)
      {
        var key := keylist[j];
        MissingStep(c, rrset, keylist, sigs, sigTtl, del, add, made, j, |add|);
        var signs := MissingSignature(c, rrset, key, nowSignedBy[key.index]);
        if signs {
          made := made + {Made(j, |add|)};
          add := add + [Fresh(c, rrset, key, |add|)];
        }
        j := j + 1;
      }
    }

    /** The body of that loop: does the key sign? */
    method MissingSignature(c: Config, rrset: RRset, key: Key, signed: bool) returns (signs: bool)
      ensures signs <==> !signed && Signing(key) && MustSign(c, rrset, keylist, key)
    {
      if signed {
        return false;
      }
      if !Signing(key) {
        return false;
      }
      if rrset.apexKeys {
        var haveKsk := HaveKsk(key);
        return key.ksk || !haveKsk || (IsZsk(c, key) && !c.kskOnly);
      }
      return IsZsk(c, key);
    }
  }

  /** The array of keys known to be signing agrees with the signatures seen. */
  ghost predicate Tallies(c: Config, rrset: RRset, keys: seq<Key>, sigs: seq<Sig>, marks: seq<bool>) {
    forall j :: 0 <= j < |marks| ==> (marks[j] <==> Marked(c, rrset, keys, sigs, j))
  }

  lemma {:induction false} TalliesStep(c: Config, rrset: RRset, keys: seq<Key>, sigs: seq<Sig>, marks: seq<bool>, s: Sig, after: seq<bool>)
    requires Tallies(c, rrset, keys, sigs, marks)
    requires Owner(keys, s).Some? ==> Owner(keys, s).value < |marks|
    requires after == if Retained(c, rrset, Maker(keys, s), s) || Replaced(c, rrset, Maker(keys, s), s)
                      then if Owner(keys, s).Some? then marks[Owner(keys, s).value := true] else marks
                      else marks
    ensures Tallies(c, rrset, keys, sigs + [s], after)
  {
    forall j | 0 <= j < |after|
      ensures after[j] <==> Marked(c, rrset, keys, sigs + [s], j)
    {
      MarkedStep(c, rrset, keys, sigs, s, j);
    }
  }

  lemma {:induction false} MakersNext(c: Config, rrset: RRset, keys: seq<Key>, sigs: seq<Sig>, j: nat)
    requires j < |keys|
    ensures Makers(c, rrset, keys, sigs, j + 1) ==
            if Signing(keys[j]) && !Marked(c, rrset, keys, sigs, j) && MustSign(c, rrset, keys, keys[j])
            then Makers(c, rrset, keys, sigs, j) + {j} else Makers(c, rrset, keys, sigs, j)
  {
  }

  lemma {:induction false} OwnerOfLonger(keys: seq<Key>, s: Sig, n: nat)
    requires n <= |keys| && Owner(keys[..n], s).Some?
    ensures Owner(keys, s) == Owner(keys[..n], s)
    decreases |keys|
  {
    if n == |keys| {
      assert keys[..n] == keys;
    } else {
      var shorter := keys[..|keys| - 1];
      assert shorter[..n] == keys[..n];
      OwnerOfLonger(shorter, s, n);
    }
  }

  /** The cascade of tests that settles one signature's fate. */
  method Judge(c: Config, rrset: RRset, key: Option<Key>, s: Sig, wasSignedBy: array<bool>) returns (keep: bool, resign: bool)
    requires key.Some? ==> key.value.index < wasSignedBy.Length
    modifies wasSignedBy
    ensures keep == Retained(c, rrset, key, s)
    ensures resign == Replaced(c, rrset, key, s)
    ensures !(keep && resign)
  {
    keep, resign := false, false;
    var future := Lt(c.now, s.inception);
    var expired;
    if key.Some? && Signing(key.value) {
      expired := Gt(Plus(c.now, c.cycle), s.expiry);
    } else {
      expired := Gt(c.now, s.expiry);
    }
    if Gt(s.inception, s.expiry) {
    } else if key.None? && !future && c.expects(s.signer) {
    } else if key.None? || future {
      keep := !expired && !c.removeOrphans;
    } else if Signing(key.value) {
      wasSignedBy[key.value.index] := true;
      if !expired && s.originalTtl == rrset.ttl && c.verifies(key.value.material, s) {
        keep := true;
      } else {
        resign := true;
      }
    } else if !Published(key.value) && c.removeOrphans {
    } else if ZoneKey(c, key.value) {
      wasSignedBy[key.value.index] := true;
      if !expired && s.originalTtl == rrset.ttl && c.verifies(key.value.material, s) {
        keep := true;
      }
    } else if !expired {
      keep := true;
    }
  }

  // ----- applying the differences

  /** The RRSIG records held for the RRset; none at all when `sigs` is empty. */
  datatype Records = Records(sigs: set<Sig>, ttl: nat)

  /** An exact deletion: it fails unless all the records are there, with the given TTL. */
  ghost function Subtract(r: Records, del: set<Sig>, ttl: nat): Option<Records> {
    if del == {} then Some(r)
    else if del <= r.sigs && ttl == r.ttl then Some(Records(r.sigs - del, r.ttl))
    else None
  }

  /** An exact addition: it fails if there are records with another TTL. */
  ghost function Merge(r: Records, add: set<Sig>, ttl: nat): Option<Records> {
    if add == {} then Some(r)
    else if r.sigs == {} || r.ttl == ttl then Some(Records(r.sigs + add, ttl))
    else None
  }

  ghost function Applied(sigs: seq<Sig>, sigTtl: nat, del: seq<Sig>, add: seq<Sig>, ttl: nat): Option<Records> {
    var r := Subtract(Records(Elements(sigs), sigTtl), Elements(del), sigTtl);
    if r.Some? then Merge(r.value, Elements(add), ttl) else None
  }

  /** Applying the deletions and then the additions never fails, leaves exactly what stays and what was
  made, and gives all of it the TTL wanted. */
  lemma {:induction false} DifferencesApply(c: Config, rrset: RRset, keys: seq<Key>, sigs: seq<Sig>, sigTtl: nat,
                                            del: seq<Sig>, add: seq<Sig>, made: set<Made>)
    requires Outcome(c, rrset, keys, sigs, sigTtl, |keys|, del, add, made)
    ensures var r := Applied(sigs, sigTtl, del, add, RecordTtl(c, rrset));
            && r.Some?
            && r.value.sigs == Kept(c, rrset, keys, sigs) + FreshOnes(c, rrset, keys, made)
            && (r.value.sigs != {} ==> r.value.ttl == RecordTtl(c, rrset))
  {
    var kept := Kept(c, rrset, keys, sigs);
    assert kept <= Elements(sigs);
    assert Elements(sigs) - (Elements(sigs) - kept) == kept;
    if sigTtl != RecordTtl(c, rrset) {
      assert Elements(sigs) - Elements(del) == {};
    }
  }

  // ----- what the result holds

  /** The key has a signature: made now, or retained. */
  ghost predicate Covered(c: Config, rrset: RRset, keys: seq<Key>, sigs: seq<Sig>, made: set<Made>, j: nat) {
    || j in MadeBy(made)
    || exists s :: s in Kept(c, rrset, keys, sigs) && Owner(keys, s) == Some(j)
  }

  /** A retained signature by a signing key: in its validity period for the coming cycle, and, unless
  future-dated, made for the RRset's TTL and verified. */
  ghost predicate Serves(c: Config, rrset: RRset, k: Key, s: Sig) {
    && !Gt(s.inception, s.expiry) && !Gt(Plus(c.now, c.cycle), s.expiry)
    && (Future(c, s) || (s.originalTtl == rrset.ttl && c.verifies(k.material, s)))
  }

  /** A key that must sign ends up covered, and by no signature that does not serve. */
  lemma {:induction false} SigningKeyIsCovered(c: Config, rrset: RRset, keys: seq<Key>, sigs: seq<Sig>, sigTtl: nat,
                                               del: seq<Sig>, add: seq<Sig>, made: set<Made>, j: nat)
    requires Outcome(c, rrset, keys, sigs, sigTtl, |keys|, del, add, made)
    requires j < |keys| && Signing(keys[j])
    ensures Covered(c, rrset, keys, sigs, made, j) <==>
            Marked(c, rrset, keys, sigs, j) || MustSign(c, rrset, keys, keys[j])
    ensures forall s :: s in Kept(c, rrset, keys, sigs) && Owner(keys, s) == Some(j) ==> Serves(c, rrset, keys[j], s)
  {
    if Marked(c, rrset, keys, sigs, j) {
      var s :| s in sigs && Owner(keys, s) == Some(j)
               && (Retained(c, rrset, Maker(keys, s), s) || Replaced(c, rrset, Maker(keys, s), s));
      assert Replaced(c, rrset, Maker(keys, s), s) ==> j in Makers(c, rrset, keys, sigs, |keys|);
      assert Retained(c, rrset, Maker(keys, s), s) ==> s in Kept(c, rrset, keys, sigs);
    }
    if j in MadeBy(made) && Outdated(c, rrset, keys, sigs, j) {
      var s :| s in sigs && Owner(keys, s) == Some(j) && Replaced(c, rrset, Maker(keys, s), s);
      assert Marked(c, rrset, keys, sigs, j);
    }
  }

  /** Every RRset but the DNSKEY RRset of the origin ends up with a record, for every signing key that is
  a ZSK, that the key has just made or that was there and serves. */
  lemma {:induction false} EveryZskSigns(c: Config, rrset: RRset, keys: seq<Key>, sigs: seq<Sig>, sigTtl: nat,
                                         del: seq<Sig>, add: seq<Sig>, made: set<Made>, j: nat)
    requires Outcome(c, rrset, keys, sigs, sigTtl, |keys|, del, add, made) && !rrset.apexKeys
    requires j < |keys| && (keys[j].forceSign || keys[j].hintSign) && (c.ignoreKskFlag || !keys[j].ksk)
    ensures var r := Applied(sigs, sigTtl, del, add, RecordTtl(c, rrset));
            r.Some? && exists s :: s in r.value.sigs &&
                                   ((exists n: nat :: s == Fresh(c, rrset, keys[j], n))
                                    || (s in sigs && Owner(keys, s) == Some(j) && Serves(c, rrset, keys[j], s)))
  {
    SigningKeyIsCovered(c, rrset, keys, sigs, sigTtl, del, add, made, j);
    DifferencesApply(c, rrset, keys, sigs, sigTtl, del, add, made);
    if j in MadeBy(made) {
      var m :| m in made && m.key == j;
      assert Fresh(c, rrset, keys[j], m.n) in FreshOnes(c, rrset, keys, made);
    }
  }

  /** The times of the signatures in seconds. */
  ghost predicate Clocked(c: Config, sigs: seq<Sig>, clock: Sig -> Clock) {
    forall s :: s in sigs ==> Shows(c, s, clock(s))
  }

  /** In plain numbers: a record that the key has just made, or one that was there, has not expired at the
  end of the coming cycle and, unless its period begins later, has the RRset's TTL and verifies. */
  lemma {:induction false} EveryZskSignsInTime(c: Config, rrset: RRset, keys: seq<Key>, sigs: seq<Sig>, sigTtl: nat,
                                               del: seq<Sig>, add: seq<Sig>, made: set<Made>, j: nat, clock: Sig -> Clock)
    requires Outcome(c, rrset, keys, sigs, sigTtl, |keys|, del, add, made) && !rrset.apexKeys && Clocked(c, sigs, clock)
    requires j < |keys| && (keys[j].forceSign || keys[j].hintSign) && (c.ignoreKskFlag || !keys[j].ksk)
    ensures var r, k := Applied(sigs, sigTtl, del, add, RecordTtl(c, rrset)), keys[j];
            r.Some? && exists s :: s in r.value.sigs && s.id == k.id && s.alg == k.alg && s.signer == k.owner &&
                                   ((s.inception == c.start && s.originalTtl == rrset.ttl && exists n: nat :: s.expiry == c.expiry(n))
                                    || (var t := clock(s);
                                        && s in sigs && t.inception <= t.expiry && t.now + c.cycle <= t.expiry
                                        && (t.now < t.inception || (s.originalTtl == rrset.ttl && c.verifies(k.material, s)))))
  {
    EveryZskSigns(c, rrset, keys, sigs, sigTtl, del, add, made, j);
    var r := Applied(sigs, sigTtl, del, add, RecordTtl(c, rrset));
    var s :| s in r.value.sigs &&
             ((exists n: nat :: s == Fresh(c, rrset, keys[j], n))
              || (s in sigs && Owner(keys, s) == Some(j) && Serves(c, rrset, keys[j], s)));
    if n: nat :| s == Fresh(c, rrset, keys[j], n) {
      assert s.expiry == c.expiry(n);
    } else {
      ServesInTime(c, rrset, keys[j], s, clock(s));
    }
  }

  lemma {:induction false} ServesInTime(c: Config, rrset: RRset, k: Key, s: Sig, t: Clock)
    requires Shows(c, s, t)
    ensures Serves(c, rrset, k, s) <==>
            && t.inception <= t.expiry && t.now + c.cycle <= t.expiry
            && (t.now < t.inception || (s.originalTtl == rrset.ttl && c.verifies(k.material, s)))
  {
    SerialOrder(t.inception, t.expiry);
    SerialOrder(t.now, t.inception);
    SerialSum(t.now, c.cycle);
    SerialOrder(t.now + c.cycle, t.expiry);
  }

  /** In plain numbers: what survives of the old signatures is neither inverted nor expired. */
  lemma {:induction false} NothingExpiredSurvives(c: Config, rrset: RRset, keys: seq<Key>, sigs: seq<Sig>, clock: Sig -> Clock, s: Sig)
    requires Clocked(c, sigs, clock) && s in Kept(c, rrset, keys, sigs)
    ensures var t := clock(s); t.inception <= t.expiry && t.now <= t.expiry
    ensures var t, k := clock(s), Maker(keys, s);
            k.Some? && (k.value.forceSign || k.value.hintSign) ==> t.now + c.cycle <= t.expiry
  {
    RetainedExactly(c, rrset, Maker(keys, s), s, clock(s));
  }

  ghost predicate AlgorithmSigns(keys: seq<Key>, a: nat) {
    exists j :: 0 <= j < |keys| && Signing(keys[j]) && keys[j].alg == a
  }

  ghost predicate AlgorithmCovered(c: Config, rrset: RRset, keys: seq<Key>, sigs: seq<Sig>, made: set<Made>, a: nat) {
    exists j :: 0 <= j < |keys| && Signing(keys[j]) && keys[j].alg == a && Covered(c, rrset, keys, sigs, made, j)
  }

  /** With `-x`, the algorithm's only unrevoked KSK may be one that does not sign; its ZSKs then leave
  the DNSKEY RRset to it. */
  ghost predicate LeftToIdleKsk(c: Config, keys: seq<Key>, a: nat) {
    && c.kskOnly
    && (exists i :: 0 <= i < |keys| && keys[i].alg == a && !keys[i].revoked && keys[i].ksk)
    && (forall j :: 0 <= j < |keys| && Signing(keys[j]) && keys[j].alg == a ==> !keys[j].ksk)
  }

  /** The DNSKEY RRset of the origin: each algorithm that signs the zone signs it too, unless it is left
  to an idle KSK and has no signature by a signing key to begin with. */
  lemma {:induction false} DnskeySignedByAlgorithm(c: Config, rrset: RRset, keys: seq<Key>, sigs: seq<Sig>, sigTtl: nat,
                                                   del: seq<Sig>, add: seq<Sig>, made: set<Made>, a: nat)
    requires Outcome(c, rrset, keys, sigs, sigTtl, |keys|, del, add, made) && rrset.apexKeys
    requires AlgorithmSigns(keys, a)
    ensures AlgorithmCovered(c, rrset, keys, sigs, made, a) <==>
            || !LeftToIdleKsk(c, keys, a)
            || exists j :: 0 <= j < |keys| && Signing(keys[j]) && keys[j].alg == a && Marked(c, rrset, keys, sigs, j)
  {
    forall j | 0 <= j < |keys| && Signing(keys[j])
      ensures Covered(c, rrset, keys, sigs, made, j) <==>
              Marked(c, rrset, keys, sigs, j) || MustSign(c, rrset, keys, keys[j])
    {
      SigningKeyIsCovered(c, rrset, keys, sigs, sigTtl, del, add, made, j);
    }
    if !LeftToIdleKsk(c, keys, a) {
      var j :| 0 <= j < |keys| && Signing(keys[j]) && keys[j].alg == a;
      if k :| 0 <= k < |keys| && Signing(keys[k]) && keys[k].alg == a && keys[k].ksk {
        assert MustSign(c, rrset, keys, keys[k]) && Covered(c, rrset, keys, sigs, made, k);
      } else {
        assert MustSign(c, rrset, keys, keys[j]) && Covered(c, rrset, keys, sigs, made, j);
      }
    }
  }

  /** Such a case: a ZSK that signs beside a KSK of its algorithm that does not. */
  lemma {:induction false} IdleKskExample(c: Config, zsk: Key, ksk: Key, ttl: nat)
    requires c.kskOnly && Signing(zsk) && !zsk.ksk && !Signing(ksk) && ksk.ksk && !ksk.revoked && ksk.alg == zsk.alg
    ensures var rrset, keys := RRset(ttl, true), [zsk, ksk];
            && Outcome(c, rrset, keys, [], RecordTtl(c, rrset), 2, [], [], {})
            && AlgorithmSigns(keys, zsk.alg) && !AlgorithmCovered(c, rrset, keys, [], {}, zsk.alg)
  {
    var rrset, keys := RRset(ttl, true), [zsk, ksk];
    assert keys[1].alg == zsk.alg && !keys[1].revoked && keys[1].ksk;
    assert Signing(keys[0]) && keys[0].alg == zsk.alg;
    assert Makers(c, rrset, keys, [], 2) == {};
    DnskeySignedByAlgorithm(c, rrset, keys, [], RecordTtl(c, rrset), [], [], {}, zsk.alg);
  }

  /** A record of the result was there before, with a validity period that is neither inverted nor past,
  or is the work of a signing key. */
  lemma {:induction false} NothingStaleSurvives(c: Config, rrset: RRset, keys: seq<Key>, sigs: seq<Sig>, sigTtl: nat,
                                                del: seq<Sig>, add: seq<Sig>, made: set<Made>)
    requires Outcome(c, rrset, keys, sigs, sigTtl, |keys|, del, add, made)
    ensures var r := Applied(sigs, sigTtl, del, add, RecordTtl(c, rrset));
            r.Some? && forall s :: s in r.value.sigs ==>
                                     || (s in sigs && !Gt(s.inception, s.expiry) && !Expired(c, Maker(keys, s), s))
                                     || exists j, n: nat :: 0 <= j < |keys| && Signing(keys[j]) && s == Fresh(c, rrset, keys[j], n)
  {
    DifferencesApply(c, rrset, keys, sigs, sigTtl, del, add, made);
    forall s | s in FreshOnes(c, rrset, keys, made)
      ensures exists j, n: nat :: 0 <= j < |keys| && Signing(keys[j]) && s == Fresh(c, rrset, keys[j], n)
    {
      var m :| m in made && m.key < |keys| && s == Fresh(c, rrset, keys[m.key], m.n);
      assert m.key in MadeBy(made);
    }
  }

  // ----- signing again

  /** No two keys go by the same name, id and algorithm. */
  ghost predicate NoTagClash(keys: seq<Key>) {
    forall i, j {:trigger keys[i].id, keys[j].id} :: 0 <= i < j < |keys| ==>
                                                       !(keys[i].id == keys[j].id && keys[i].alg == keys[j].alg && keys[i].owner == keys[j].owner)
  }

  /** New signatures verify, and their period holds the present and the coming cycle. */
  ghost predicate FreshServe(c: Config, rrset: RRset, keys: seq<Key>) {
    forall j, n: nat :: 0 <= j < |keys| && Signing(keys[j]) ==>
                          var s := Fresh(c, rrset, keys[j], n);
                          !Gt(s.inception, s.expiry) && !Future(c, s) && Sound(c, rrset, keys[j], s)
  }

  ghost predicate AllLooked(c: Config, keys: seq<Key>, sigs: set<Sig>) {
    forall s :: s in sigs ==> Owner(keys, s).Some? || c.disk(s.signer, s.id, s.alg).None?
  }

  lemma {:induction false} NothingToLoad(c: Config, keys: seq<Key>, sigs: seq<Sig>)
    requires AllLooked(c, keys, Elements(sigs))
    ensures KnownAll(c, keys, sigs) == keys
  {
    if sigs != [] {
      var n := |sigs| - 1;
      assert sigs[n] in Elements(sigs);
      assert forall s :: s in Elements(sigs[..n]) ==> s in Elements(sigs);
      NothingToLoad(c, keys, sigs[..n]);
    }
  }

  /** Without clashes, a new signature is put down to the key that made it. */
  lemma {:induction false} FreshOwner(c: Config, rrset: RRset, keys: seq<Key>, j: nat, n: nat)
    requires j < |keys| && NoTagClash(keys)
    ensures Owner(keys, Fresh(c, rrset, keys[j], n)) == Some(j)
  {
    var s := Fresh(c, rrset, keys[j], n);
    assert Matches(keys[j], s);
    OwnerIsFirst(keys, s);
    var i := Owner(keys, s).value;
    assert keys[i].id == keys[j].id;
  }

  lemma {:induction false} AllLookedUp(c: Config, keys0: seq<Key>, sigs: seq<Sig>)
    ensures AllLooked(c, KnownAll(c, keys0, sigs), Elements(sigs))
  {
    forall s | s in Elements(sigs)
      ensures Owner(KnownAll(c, keys0, sigs), s).Some? || c.disk(s.signer, s.id, s.alg).None?
    {
      var i :| 0 <= i < |sigs| && sigs[i] == s;
      MakerIsFinal(c, keys0, sigs, i);
    }
  }

  /** Every signature of the result would be retained. */
  lemma {:induction false} ResultIsRetained(c: Config, rrset: RRset, keys: seq<Key>, sigs: seq<Sig>, made: set<Made>, s: Sig)
    requires MadeBy(made) == Makers(c, rrset, keys, sigs, |keys|)
    requires NoTagClash(keys) && FreshServe(c, rrset, keys) && AllLooked(c, keys, Elements(sigs))
    requires s in Kept(c, rrset, keys, sigs) + FreshOnes(c, rrset, keys, made)
    ensures Owner(keys, s).Some? || c.disk(s.signer, s.id, s.alg).None?
    ensures Retained(c, rrset, Maker(keys, s), s) && !Replaced(c, rrset, Maker(keys, s), s)
  {
    if s in Kept(c, rrset, keys, sigs) {
      assert s in Elements(sigs);
    } else {
      var m :| m in made && m.key < |keys| && s == Fresh(c, rrset, keys[m.key], m.n);
      assert m.key in MadeBy(made);
      FreshOwner(c, rrset, keys, m.key, m.n);
      assert Signing(keys[m.key]);
    }
  }

  /** A signing key covered before is covered by a signature of the result. */
  lemma {:induction false} CoveredIsMarked(c: Config, rrset: RRset, keys: seq<Key>, sigs: seq<Sig>, made: set<Made>, result: seq<Sig>, j: nat)
    requires MadeBy(made) == Makers(c, rrset, keys, sigs, |keys|)
    requires NoTagClash(keys) && FreshServe(c, rrset, keys) && AllLooked(c, keys, Elements(sigs))
    requires Elements(result) == Kept(c, rrset, keys, sigs) + FreshOnes(c, rrset, keys, made)
    requires j < |keys| && Covered(c, rrset, keys, sigs, made, j)
    ensures Marked(c, rrset, keys, result, j)
  {
    var s;
    if j in MadeBy(made) {
      var m :| m in made && m.key == j;
      FreshOwner(c, rrset, keys, j, m.n);
      s := Fresh(c, rrset, keys[j], m.n);
    } else {
      s :| s in Kept(c, rrset, keys, sigs) && Owner(keys, s) == Some(j);
    }
    assert s in Elements(result);
    ResultIsRetained(c, rrset, keys, sigs, made, s);
  }

  /** Signing a second time, with the same keys and at the same time, changes nothing. */
  lemma {:induction false} SigningIsIdempotent(c: Config, rrset: RRset, keys0: seq<Key>, sigs: seq<Sig>, sigTtl: nat,
                                               del: seq<Sig>, add: seq<Sig>, made: set<Made>,
                                               result: seq<Sig>, del': seq<Sig>, add': seq<Sig>, made': set<Made>)
    requires var keys := KnownAll(c, keys0, sigs);
             && Outcome(c, rrset, keys, sigs, sigTtl, |keys|, del, add, made)
             && NoTagClash(keys) && FreshServe(c, rrset, keys)
             && Elements(result) == Kept(c, rrset, keys, sigs) + FreshOnes(c, rrset, keys, made)
             && var keys' := KnownAll(c, keys, result);
             Outcome(c, rrset, keys', result, RecordTtl(c, rrset), |keys'|, del', add', made')
    ensures KnownAll(c, KnownAll(c, keys0, sigs), result) == KnownAll(c, keys0, sigs)
    ensures del' == [] && add' == []
  {
    var keys := KnownAll(c, keys0, sigs);
    AllLookedUp(c, keys0, sigs);
    forall s | s in Elements(result)
      ensures Owner(keys, s).Some? || c.disk(s.signer, s.id, s.alg).None?
      ensures Retained(c, rrset, Maker(keys, s), s) && !Replaced(c, rrset, Maker(keys, s), s)
    {
      ResultIsRetained(c, rrset, keys, sigs, made, s);
    }
    NothingToLoad(c, keys, result);
    assert Kept(c, rrset, keys, result) == Elements(result);
    NoMoreMakers(c, rrset, keys, sigs, sigTtl, del, add, made, result);
    NobodyMade(made');
    NoElements(del');
    NoElements(add');
  }

  lemma {:induction false} NobodyMade(made: set<Made>)
    ensures MadeBy(made) == {} ==> made == {}
  {
    assert forall m :: m in made ==> m.key in MadeBy(made);
  }

  lemma {:induction false} NoElements(s: seq<Sig>)
    ensures Elements(s) == {} ==> s == []
  {
    assert s != [] ==> s[0] in Elements(s);
  }

  lemma {:induction false} NoMoreMakers(c: Config, rrset: RRset, keys: seq<Key>, sigs: seq<Sig>, sigTtl: nat,
                                        del: seq<Sig>, add: seq<Sig>, made: set<Made>, result: seq<Sig>)
    requires Outcome(c, rrset, keys, sigs, sigTtl, |keys|, del, add, made)
    requires NoTagClash(keys) && FreshServe(c, rrset, keys) && AllLooked(c, keys, Elements(sigs))
    requires Elements(result) == Kept(c, rrset, keys, sigs) + FreshOnes(c, rrset, keys, made)
    ensures Makers(c, rrset, keys, result, |keys|) == {}
  {
    forall j | 0 <= j < |keys|
      ensures !Outdated(c, rrset, keys, result, j)
      ensures Signing(keys[j]) && MustSign(c, rrset, keys, keys[j]) ==> Marked(c, rrset, keys, result, j)
    {
      if Outdated(c, rrset, keys, result, j) {
        var s :| s in result && Owner(keys, s) == Some(j) && Replaced(c, rrset, Maker(keys, s), s);
        assert s in Elements(result);
        ResultIsRetained(c, rrset, keys, sigs, made, s);
      }
      if Signing(keys[j]) && MustSign(c, rrset, keys, keys[j]) {
        SigningKeyIsCovered(c, rrset, keys, sigs, sigTtl, del, add, made, j);
        CoveredIsMarked(c, rrset, keys, sigs, made, result, j);
      }
    }
  }
}
