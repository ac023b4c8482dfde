/** The registry key of a plugin: its 32-bit id in upper-case hexadecimal, unpadded. */
module HexKeys {
  import opened CString

  type Word = w: int | 0 <= w < 0x1_0000_0000

  function Digit(d: int): Byte
    requires 0 <= d < 16
  {
    if d < 10 then 48 + d else 55 + d
  }

  /** snprintf(key, 9, "%lX", id) */
  function HexKey(n: nat): (s: seq<Byte>)
    ensures IsText(s) && s != []
  {
    if n < 16 then [Digit(n)] else HexKey(n / 16) + [Digit(n % 16)]
  }

  function DigitValue(b: Byte): int {
    if b < 58 then b - 48 else b - 55
  }

  function HexValue(s: seq<Byte>): int {
    if s == [] then 0 else 16 * HexValue(s[..|s| - 1]) + DigitValue(s[|s| - 1])
  }

  /** The key determines the id. */
  lemma {:induction false} HexReadsBack(n: nat)
    ensures HexValue(HexKey(n)) == n
  {
    if n >= 16 {
      HexReadsBack(n / 16);
      assert HexKey(n)[..|HexKey(n)| - 1] == HexKey(n / 16);
    }
  }

  lemma {:induction false} HexInjective(a: nat, b: nat)
    requires HexKey(a) == HexKey(b)
    ensures a == b
  {
    HexReadsBack(a);
    HexReadsBack(b);
  }

  /** Its characters are decimal digits and capital letters up to F, and it has no leading zero. */
  lemma {:induction false} HexKeyDigits(n: nat)
    ensures forall b | b in HexKey(n) :: '0' as int <= b <= '9' as int || 'A' as int <= b <= 'F' as int
    ensures HexKey(n)[0] == '0' as int ==> n == 0
  {
    if n >= 16 { HexKeyDigits(n / 16); }
  }

  function Power16(k: nat): nat {
    if k == 0 then 1 else 16 * Power16(k - 1)
  }

  lemma {:induction false} HexLength(n: nat, k: nat)
    requires k > 0 && n < Power16(k)
    ensures |HexKey(n)| <= k
  {
    if n >= 16 {
      assert k > 1;
      HexLength(n / 16, k - 1);
    }
  }

  /** It fits the nine bytes given to it. */
  lemma {:induction false} HexKeyFits(id: Word)
    ensures 1 <= |HexKey(id)| <= 8
  {
    assert Power16(4) == 65536 && Power16(8) == 0x1_0000_0000;
    HexLength(id, 8);
  }
}

/** init_plugins and ktshSetPluginState as steps on the plugin list and the registry records. */
module PluginModel {
  import opened CString
  import opened RegistryFormat
  import opened HexKeys

  datatype Plugin = Plugin(id: Word, kernel: bool, shell: bool, enabled: bool)

  datatype System = System(plugins: seq<Plugin>, records: seq<Record>)

  /** A restart finds plugins and runs init_plugins; SetState carries the outcome of loading the
      module and what registry_set's uninitialised entry holds. */
  datatype Event =
    | Restart(found: seq<Plugin>)
    | SetState(id: Word, on: bool, uid: int, stack: seq<Byte>)

  predicate DistinctIds(ps: seq<Plugin>) {
    forall i, j | 0 <= i < j < |ps| :: ps[i].id != ps[j].id
  }

  // init_plugins

  /** strncmp(entry->key, key, 8) == 0 */
  predicate Match8(r: Record, key: seq<Byte>) {
    StrNEqual(r.key, key, 8)
  }

  /** The first record init_plugins takes for the key, or the number of records. */
  function Find8(rs: seq<Record>, key: seq<Byte>): (k: nat)
    ensures k <= |rs|
    ensures k < |rs| ==> Match8(rs[k], key)
    ensures forall i | 0 <= i < k :: !Match8(rs[i], key)
  {
    if rs == [] || Match8(rs[0], key) then 0 else 1 + Find8(rs[1..], key)
  }

  lemma Find8Is(rs: seq<Record>, key: seq<Byte>, k: nat)
    requires k <= |rs| && (k < |rs| ==> Match8(rs[k], key))
    requires forall i | 0 <= i < k :: !Match8(rs[i], key)
    ensures Find8(rs, key) == k
  {}

  function NewRecord(key: seq<Byte>): (r: Record)
    requires IsText(key)
    ensures |r.key| == KEY_SIZE
    ensures |key| < KEY_SIZE - 1 ==> Text(r.key) == key
  {
    Record(StrNCopy(seq(KEY_SIZE, _ => 0), key, KEY_SIZE - 1), 0)
  }

  /** A plugin with no record gets one saying disabled. */
  function Known(rs: seq<Record>, id: Word): seq<Record> {
    if Find8(rs, HexKey(id)) < |rs| then rs else rs + [NewRecord(HexKey(id))]
  }

  /** A plugin with a record is enabled as that says; another is left as it was. */
  function Matched(rs: seq<Record>, p: Plugin): Plugin {
    var k := Find8(rs, HexKey(p.id));
    if k < |rs| then p.(enabled := rs[k].value != 0) else p
  }

  /** The traversal of init_plugins, up to and not including plugin k. */
  function InitRecords(rs: seq<Record>, ps: seq<Plugin>, k: nat): seq<Record>
    requires k <= |ps|
  {
    if k == 0 then rs else Known(InitRecords(rs, ps, k - 1), ps[k - 1].id)
  }

  function Init(rs: seq<Record>, ps: seq<Plugin>): (s: System)
    ensures |s.plugins| == |ps|
    ensures forall i | 0 <= i < |ps| :: s.plugins[i] == Matched(InitRecords(rs, ps, i), ps[i])
    ensures s.records == InitRecords(rs, ps, |ps|)
  {
    System(seq(|ps|, i requires 0 <= i < |ps| => Matched(InitRecords(rs, ps, i), ps[i])),
           InitRecords(rs, ps, |ps|))
  }

  lemma {:induction false} InitKeepsFit(rs: seq<Record>, ps: seq<Plugin>, k: nat)
    requires KeysFit(rs) && k <= |ps|
    ensures KeysFit(InitRecords(rs, ps, k))
  {
    if k > 0 { InitKeepsFit(rs, ps, k - 1); }
  }

  // ktshSetPluginState

  /** The position of the first plugin with the id, or the number of plugins. */
  function PluginIndex(ps: seq<Plugin>, id: Word): (k: nat)
    ensures k <= |ps|
    ensures k < |ps| ==> ps[k].id == id
    ensures forall i | 0 <= i < k :: ps[i].id != id
  {
    if ps == [] || ps[0].id == id then 0 else 1 + PluginIndex(ps[1..], id)
  }

  /** load_plugin's result, for the plugins that are loaded at once. */
  function LoadResult(p: Plugin, uid: int): int {
    if (p.kernel || p.shell) && uid < 0 then uid else 0
  }

  /** The event sets the state of the plugin: it is known, and loading it did not fail. */
  predicate Takes(s: System, e: Event) {
    e.SetState? &&
    var k := PluginIndex(s.plugins, e.id);
    k < |s.plugins| && (e.on ==> LoadResult(s.plugins[k], e.uid) >= 0)
  }

  predicate Possible(e: Event) {
    match e
    case Restart(found) => DistinctIds(found) && forall p | p in found :: !p.enabled
    case SetState(_, _, _, stack) => |stack| == KEY_SIZE
  }

  function Step(s: System, e: Event): System
    requires Possible(e) && KeysFit(s.records)
  {
    match e
    case Restart(found) => Init(s.records, found)
    case SetState(id, on, uid, stack) =>
      if Takes(s, e) then
        var k := PluginIndex(s.plugins, id);
        var last := if s.records == [] then stack else s.records[|s.records| - 1].key;
        System(s.plugins[k := s.plugins[k].(enabled := on)],
               Updated(s.records, HexKey(id), if on then 1 else 0, last))
      else s
  }
}

/** What the registry and the enabled flags say over any run. */
module PluginRuns {
  import opened CString
  import opened RegistryFormat
  import opened HexKeys
  import opened PluginModel

  /** The registry's answer for a plugin. */
  predicate Truth(rs: seq<Record>, id: Word) {
    var v := Lookup(rs, HexKey(id));
    v.Some? && v.value != 0
  }

  function Run(s: System, es: seq<Event>): (r: System)
    requires KeysFit(s.records) && forall e | e in es :: Possible(e)
    ensures KeysFit(r.records)
    decreases |es|
  {
    if es == [] then s
    else
      StepKeepsFit(s, es[0]);
      Run(Step(s, es[0]), es[1..])
  }

  lemma {:induction false} StepKeepsFit(s: System, e: Event)
    requires KeysFit(s.records) && Possible(e)
    ensures KeysFit(Step(s, e).records)
  {
    if e.Restart? { InitKeepsFit(s.records, e.found, |e.found|); }
  }

  // The registry remembers

  lemma {:induction false} FindAppend(rs: seq<Record>, r: Record, key: seq<Byte>)
    ensures Find(rs + [r], key) ==
            if Find(rs, key) < |rs| then Find(rs, key) else if Text(r.key) == key then |rs| else |rs| + 1
  {
    hide Text, Find;
    var k := Find(rs, key);
    FindIs(rs + [r], key, if k < |rs| then k else if Text(r.key) == key then |rs| else |rs| + 1);
  }

  lemma {:induction false} KnownKeepsTruth(rs: seq<Record>, id: Word, other: Word)
    ensures Truth(Known(rs, id), other) == Truth(rs, other)
  {
    hide Find, Find8, HexKey, NewRecord;
    NewRecordValue(HexKey(id));
    FindAppend(rs, NewRecord(HexKey(id)), HexKey(other));
  }

  lemma NewRecordValue(key: seq<Byte>)
    requires IsText(key)
    ensures NewRecord(key).value == 0
  {}

  lemma {:induction false} InitKeepsTruth(rs: seq<Record>, ps: seq<Plugin>, k: nat, id: Word)
    requires k <= |ps|
    ensures Truth(InitRecords(rs, ps, k), id) == Truth(rs, id)
  {
    if k > 0 {
      InitKeepsTruth(rs, ps, k - 1, id);
      KnownKeepsTruth(InitRecords(rs, ps, k - 1), ps[k - 1].id, id);
    }
  }

  lemma {:induction false} SetTruth(rs: seq<Record>, id: Word, on: bool, rest: seq<Byte>, other: Word)
    requires |rest| == KEY_SIZE
    ensures Truth(Updated(rs, HexKey(id), if on then 1 else 0, rest), other) ==
            if other == id then on else Truth(rs, other)
  {
    hide Find, HexKey, Updated;
    HexKeyFits(id);
    UpdateIsMapUpdate(rs, HexKey(id), if on then 1 else 0, rest, HexKey(other));
    if HexKey(id) == HexKey(other) { HexInjective(id, other); }
  }

  /** The last state successfully set, or what there was before. */
  predicate LastSet(s: System, es: seq<Event>, id: Word, before: bool)
    requires KeysFit(s.records) && forall e | e in es :: Possible(e)
    decreases |es|
  {
    if es == [] then before
    else
      StepKeepsFit(s, es[0]);
      LastSet(Step(s, es[0]), es[1..], id, if Takes(s, es[0]) && es[0].id == id then es[0].on else before)
  }

  lemma {:induction false} StepTruth(s: System, e: Event, id: Word)
    requires KeysFit(s.records) && Possible(e)
    ensures Truth(Step(s, e).records, id) ==
            if Takes(s, e) && e.id == id then e.on else Truth(s.records, id)
  {
    hide Truth, HexKey, Updated, Init, InitRecords, PluginIndex;
    match e
    case Restart(found) => InitKeepsTruth(s.records, found, |found|, id);
    case SetState(i, on, uid, stack) =>
      var last := if s.records == [] then stack else s.records[|s.records| - 1].key;
      SetTruth(s.records, i, on, last, id);
  }

  /** What a set does, in full: an unknown plugin, and one of the kernel or the shell that cannot be
      loaded, leave everything as it is; otherwise the flag and the registry take the state. */
  lemma {:induction false} SetOutcome(s: System, id: Word, on: bool, uid: int, stack: seq<Byte>)
    requires KeysFit(s.records) && |stack| == KEY_SIZE
    ensures var k := PluginIndex(s.plugins, id);
            var t := Step(s, SetState(id, on, uid, stack));
            if k == |s.plugins| || (on && (s.plugins[k].kernel || s.plugins[k].shell) && uid < 0) then t == s
            else && |t.plugins| == |s.plugins| && t.plugins[k] == s.plugins[k].(enabled := on)
                 && (forall i | 0 <= i < |s.plugins| && i != k :: t.plugins[i] == s.plugins[i])
                 && Truth(t.records, id) == on
  {
    hide Truth, HexKey, Updated, PluginIndex;
    StepTruth(s, SetState(id, on, uid, stack), id);
  }

  /** Over any run the registry holds, for every id, the last state successfully set, or else
      what it held at the start. */
  lemma {:induction false} RegistryRemembers(s: System, es: seq<Event>, id: Word)
    requires KeysFit(s.records) && forall e | e in es :: Possible(e)
    ensures Truth(Run(s, es).records, id) == LastSet(s, es, id, Truth(s.records, id))
    decreases |es|
  {
    hide Truth, Step, Takes;
    if es != [] {
      StepTruth(s, es[0], id);
      StepKeepsFit(s, es[0]);
      RegistryRemembers(Step(s, es[0]), es[1..], id);
    }
  }

  // What eight characters can confuse

  /** A longer record shares the key's eight characters, with no record of the key before it. */
  predicate CapturedAt(rs: seq<Record>, key: seq<Byte>, i: nat)
    requires i < |rs|
  {
    && |Text(rs[i].key)| > 8 && Text(rs[i].key)[..8] == key
    && forall j | 0 <= j < i :: Text(rs[j].key) != key
  }

  predicate Captured(rs: seq<Record>, key: seq<Byte>) {
    exists i: nat :: i < |rs| && CapturedAt(rs, key, i)
  }

  lemma {:induction false} MatchMeans(r: Record, id: Word)
    ensures Match8(r, HexKey(id)) <==> First(Text(r.key), 8) == HexKey(id)
  {
    HexKeyFits(id);
    ComparesTexts(r.key, HexKey(id), 8);
    TextIs(HexKey(id), HexKey(id));
  }

  /** init_plugins finds the plugin's own record if and only if no longer record captures its key. */
  lemma {:induction false} FindsOwnRecordIff(rs: seq<Record>, id: Word)
    ensures Find8(rs, HexKey(id)) == Find(rs, HexKey(id)) <==> !Captured(rs, HexKey(id))
  {
    hide Text, StrNEqual, HexKey, Find, Find8, Match8;
    var key := HexKey(id);
    HexKeyFits(id);
    forall i | 0 <= i < |rs| ensures Match8(rs[i], key) <==> First(Text(rs[i].key), 8) == key {
      MatchMeans(rs[i], id);
    }
    var k, m := Find8(rs, key), Find(rs, key);
    assert m < |rs| ==> Match8(rs[m], key);
    assert k < m ==> CapturedAt(rs, key, k);
    if Captured(rs, key) {
      var i: nat :| i < |rs| && CapturedAt(rs, key, i);
      assert Match8(rs[i], key) && Text(rs[i].key) != key;
      assert k <= i < m;
    }
  }

  /** A record whose nine-character key extends an eight-digit one captures it: a plugin that
      has no record of its own comes up enabled. */
  lemma {:induction false} LongerRecordCaptures(id: Word, r: Record)
    requires id >= 0x1000_0000 && Text(r.key) == HexKey(16 * id) && r.value != 0
    ensures !Truth([r], id) && Captured([r], HexKey(id))
    ensures Init([r], [Plugin(id, false, false, false)]).plugins[0].enabled
  {
    hide Text, HexKey, StrNEqual;
    HexKeyFits(id);
    EightDigits(id);
    assert CapturedAt([r], HexKey(id), 0);
    MatchMeans(r, id);
    assert Find8([r], HexKey(id)) == 0;
    assert InitRecords([r], [Plugin(id, false, false, false)], 0) == [r];
  }

  lemma {:induction false} EightDigits(id: Word)
    requires id >= 0x1000_0000
    ensures |HexKey(id)| == 8 && |HexKey(16 * id)| == 9 && HexKey(16 * id)[..8] == HexKey(id)
  {
    assert Power16(3) == 4096 && Power16(7) == 0x1000_0000;
    HexLongerThan(id, 7);
    HexKeyFits(id);
  }

  lemma {:induction false} HexLongerThan(n: nat, k: nat)
    requires n >= Power16(k)
    ensures |HexKey(n)| > k
  {
    if k > 0 { HexLongerThan(n / 16, k - 1); }
  }

  /** Every eight-digit id has such a record. */
  lemma {:induction false} LongerRecordExists(id: Word) returns (r: Record)
    requires id >= 0x1000_0000
    ensures |r.key| == KEY_SIZE && Text(r.key) == HexKey(16 * id)
    ensures !Truth([r], id) && Captured([r], HexKey(id))
    ensures Init([r], [Plugin(id, false, false, false)]).plugins[0].enabled
  {
    hide Truth, Captured, Init, HexKey, Text;
    EightDigits(id);
    r := NewRecord(HexKey(16 * id)).(value := 1);
    LongerRecordCaptures(id, r);
  }

  // The flags agree with the registry

  /** rs1 is rs with values changed and short records added. */
  predicate Extends(rs: seq<Record>, rs1: seq<Record>) {
    && |rs| <= |rs1|
    && (forall i | 0 <= i < |rs| :: rs1[i].key == rs[i].key)
    && (forall i | |rs| <= i < |rs1| :: |Text(rs1[i].key)| <= 8)
  }

  lemma {:induction false} KnownExtends(rs: seq<Record>, id: Word)
    ensures Extends(rs, Known(rs, id)) && Find8(Known(rs, id), HexKey(id)) < |Known(rs, id)|
  {
    hide Text, HexKey, Find8, StrNEqual;
    HexKeyFits(id);
    MatchMeans(NewRecord(HexKey(id)), id);
    var k := |rs|;
    assert Find8(rs, HexKey(id)) == k ==> Match8(Known(rs, id)[k], HexKey(id));
  }

  lemma {:induction false} InitExtends(rs: seq<Record>, ps: seq<Plugin>, j: nat, k: nat)
    requires j <= k <= |ps|
    ensures Extends(InitRecords(rs, ps, j), InitRecords(rs, ps, k))
    decreases k
  {
    hide Text, Known;
    if j < k {
      InitExtends(rs, ps, j, k - 1);
      KnownExtends(InitRecords(rs, ps, k - 1), ps[k - 1].id);
    }
  }

  lemma {:induction false} UpdatedExtends(rs: seq<Record>, id: Word, on: bool, rest: seq<Byte>)
    requires |rest| == KEY_SIZE
    ensures Extends(rs, Updated(rs, HexKey(id), if on then 1 else 0, rest))
  {
    hide HexKey, Find;
    HexKeyFits(id);
  }

  lemma {:induction false} CapturedStays(rs: seq<Record>, rs1: seq<Record>, key: seq<Byte>)
    requires Extends(rs, rs1) && Captured(rs1, key)
    ensures Captured(rs, key)
  {
    hide Text;
    var i: nat :| i < |rs1| && CapturedAt(rs1, key, i);
    assert CapturedAt(rs, key, i);
  }

  lemma {:induction false} MatchedStays(rs: seq<Record>, rs1: seq<Record>, id: Word)
    requires Extends(rs, rs1) && Find8(rs, HexKey(id)) < |rs|
    ensures Find8(rs1, HexKey(id)) == Find8(rs, HexKey(id))
  {
    hide Text, HexKey, StrNEqual, Find8;
    Find8Is(rs1, HexKey(id), Find8(rs, HexKey(id)));
  }

  /** The flags are what the registry says. */
  predicate Agree(s: System) {
    && DistinctIds(s.plugins)
    && forall i | 0 <= i < |s.plugins| :: s.plugins[i].enabled == Truth(s.records, s.plugins[i].id)
  }

  /** After init_plugins a plugin whose key is not captured has the flag the registry held. */
  lemma {:induction false} InitAgrees(rs: seq<Record>, ps: seq<Plugin>, i: nat)
    requires i < |ps| && !ps[i].enabled && !Captured(rs, HexKey(ps[i].id))
    ensures Init(rs, ps).plugins[i] == ps[i].(enabled := Truth(rs, ps[i].id))
    ensures Truth(Init(rs, ps).records, ps[i].id) == Truth(rs, ps[i].id)
  {
    hide Text, HexKey, StrNEqual, Find, Find8, Captured, Known, Extends;
    var before := InitRecords(rs, ps, i);
    InitExtends(rs, ps, 0, i);
    if Captured(before, HexKey(ps[i].id)) { CapturedStays(rs, before, HexKey(ps[i].id)); }
    FindsOwnRecordIff(before, ps[i].id);
    InitKeepsTruth(rs, ps, i, ps[i].id);
    InitKeepsTruth(rs, ps, |ps|, ps[i].id);
  }

  lemma {:induction false} StepExtends(s: System, e: Event)
    requires KeysFit(s.records) && Possible(e)
    ensures Extends(s.records, Step(s, e).records)
  {
    hide Text, HexKey, Updated, InitRecords, Known;
    match e
    case Restart(found) =>
      InitExtends(s.records, found, 0, |found|);
      assert InitRecords(s.records, found, 0) == s.records by { InitNone(s.records, found); }
    case SetState(id, on, uid, stack) =>
      var last := if s.records == [] then stack else s.records[|s.records| - 1].key;
      UpdatedExtends(s.records, id, on, last);
  }

  lemma {:induction false} InitNone(rs: seq<Record>, ps: seq<Plugin>)
    ensures InitRecords(rs, ps, 0) == rs
  {}

  /** The flag of the plugin with the id, if there is one, is what the registry says. */
  predicate AgreesOn(s: System, id: Word) {
    && DistinctIds(s.plugins)
    && forall i | 0 <= i < |s.plugins| && s.plugins[i].id == id :: s.plugins[i].enabled == Truth(s.records, id)
  }

  predicate Finds(e: Event, id: Word) {
    e.Restart? && exists i :: 0 <= i < |e.found| && e.found[i].id == id
  }

  /** Some restart of the run finds the plugin. */
  predicate FoundIn(es: seq<Event>, id: Word) {
    exists e :: e in es && Finds(e, id)
  }

  lemma {:induction false} StepAgreesOn(s: System, e: Event, id: Word)
    requires KeysFit(s.records) && Possible(e) && AgreesOn(s, id)
    requires Finds(e, id) ==> !Captured(s.records, HexKey(id))
    ensures AgreesOn(Step(s, e), id)
  {
    hide Text, HexKey, Updated, InitRecords, Known, Truth, Captured;
    var t := Step(s, e);
    StepTruth(s, e, id);
    match e
    case Restart(found) =>
      forall i | 0 <= i < |found| && found[i].id == id ensures t.plugins[i].enabled == Truth(t.records, id) {
        InitAgrees(s.records, found, i);
      }
    case SetState(_, _, _, _) =>
  }

  /** Over any run of toggles and restarts the flag of a plugin agrees with the registry, and so
      is the last state successfully set for it, or what the registry held at the start. Its key
      must not be captured if a restart finds it; what becomes of other plugins does not matter. */
  lemma {:induction false} FlagAgrees(s: System, es: seq<Event>, id: Word)
    requires KeysFit(s.records) && (forall e | e in es :: Possible(e)) && AgreesOn(s, id)
    requires FoundIn(es, id) ==> !Captured(s.records, HexKey(id))
    ensures AgreesOn(Run(s, es), id)
    ensures forall p | p in Run(s, es).plugins && p.id == id ::
              p.enabled == Truth(Run(s, es).records, id) == LastSet(s, es, id, Truth(s.records, id))
  {
    hide Truth, Step, Takes, Captured, LastSet, Extends, FoundIn;
    FlagAgreesRun(s, es, id);
    RegistryRemembers(s, es, id);
  }

  lemma {:induction false} FlagAgreesRun(s: System, es: seq<Event>, id: Word)
    requires KeysFit(s.records) && (forall e | e in es :: Possible(e)) && AgreesOn(s, id)
    requires FoundIn(es, id) ==> !Captured(s.records, HexKey(id))
    ensures AgreesOn(Run(s, es), id)
    decreases |es|
  {
    hide Step, Captured, Extends, AgreesOn, Finds;
    if es != [] {
      var t := Step(s, es[0]);
      StepKeepsFit(s, es[0]);
      StepAgreesOn(s, es[0], id);
      StepExtends(s, es[0]);
      if Captured(t.records, HexKey(id)) { CapturedStays(s.records, t.records, HexKey(id)); }
      FlagAgreesRun(t, es[1..], id);
    }
  }

  /** No plugin found at any restart of the run has its key captured. */
  predicate Uncaptured(rs: seq<Record>, es: seq<Event>) {
    forall e | e in es && e.Restart? :: forall p | p in e.found :: !Captured(rs, HexKey(p.id))
  }

  /** Then every flag agrees. */
  lemma {:induction false} FlagsAgree(s: System, es: seq<Event>)
    requires KeysFit(s.records) && (forall e | e in es :: Possible(e)) && Agree(s) && Uncaptured(s.records, es)
    ensures Agree(Run(s, es))
    ensures forall i | 0 <= i < |Run(s, es).plugins| ::
              var p := Run(s, es).plugins[i];
              p.enabled == LastSet(s, es, p.id, Truth(s.records, p.id))
  {
    hide Truth, Step, Takes, Captured, LastSet, Extends, Run;
    var r := Run(s, es);
    IdsDistinct(s, es);
    forall i | 0 <= i < |r.plugins|
      ensures var p := r.plugins[i];
              p.enabled == Truth(r.records, p.id) == LastSet(s, es, p.id, Truth(s.records, p.id))
    {
      assert r.plugins[i] in r.plugins;
      FlagAgrees(s, es, r.plugins[i].id);
    }
  }

  lemma {:induction false} IdsDistinct(s: System, es: seq<Event>)
    requires KeysFit(s.records) && (forall e | e in es :: Possible(e)) && DistinctIds(s.plugins)
    ensures DistinctIds(Run(s, es).plugins)
    decreases |es|
  {
    hide Updated, InitRecords, HexKey;
    if es != [] {
      StepKeepsFit(s, es[0]);
      IdsDistinct(Step(s, es[0]), es[1..]);
    }
  }

  // A second init_plugins

  /** Every plugin has a record that init_plugins takes for it. */
  predicate Settled(rs: seq<Record>, ps: seq<Plugin>) {
    forall p | p in ps :: Find8(rs, HexKey(p.id)) < |rs|
  }

  lemma {:induction false} InitSettles(rs: seq<Record>, ps: seq<Plugin>)
    ensures Settled(Init(rs, ps).records, ps)
  {
    hide HexKey, Find8, Extends, Known, InitRecords;
    forall p | p in ps ensures Find8(Init(rs, ps).records, HexKey(p.id)) < |Init(rs, ps).records| {
      var i :| 0 <= i < |ps| && ps[i] == p;
      InitNext(rs, ps, i);
      KnownExtends(InitRecords(rs, ps, i), p.id);
      InitExtends(rs, ps, i + 1, |ps|);
      ExtendsLength(InitRecords(rs, ps, i + 1), Init(rs, ps).records);
      MatchedStays(InitRecords(rs, ps, i + 1), Init(rs, ps).records, p.id);
    }
  }

  lemma {:induction false} InitNext(rs: seq<Record>, ps: seq<Plugin>, i: nat)
    requires i < |ps|
    ensures InitRecords(rs, ps, i + 1) == Known(InitRecords(rs, ps, i), ps[i].id)
  {}

  lemma {:induction false} ExtendsLength(rs: seq<Record>, rs1: seq<Record>)
    requires Extends(rs, rs1)
    ensures |rs| <= |rs1|
  {}

  lemma {:induction false} SettledIsKept(rs: seq<Record>, ps: seq<Plugin>, k: nat)
    requires k <= |ps| && Settled(rs, ps)
    ensures InitRecords(rs, ps, k) == rs
  {
    hide HexKey, Find8;
    if k > 0 {
      SettledIsKept(rs, ps, k - 1);
      assert ps[k - 1] in ps;
    }
  }

  lemma {:induction false} RunExtends(s: System, es: seq<Event>)
    requires KeysFit(s.records) && forall e | e in es :: Possible(e)
    ensures Extends(s.records, Run(s, es).records)
    decreases |es|
  {
    hide Step, Text;
    if es != [] {
      StepKeepsFit(s, es[0]);
      StepExtends(s, es[0]);
      RunExtends(Step(s, es[0]), es[1..]);
    }
  }

  /** The program itself never captures a key: a run leaves a key captured if and only if a record
      that was in the file before captures it. */
  lemma {:induction false} CapturedFromOutside(s: System, es: seq<Event>, id: Word)
    requires KeysFit(s.records) && forall e | e in es :: Possible(e)
    ensures Captured(Run(s, es).records, HexKey(id)) <==> Captured(s.records, HexKey(id))
  {
    hide Run, Text, HexKey, Possible;
    RunExtends(s, es);
    var rs, rs1 := s.records, Run(s, es).records;
    if Captured(rs1, HexKey(id)) {
      CapturedStays(rs, rs1, HexKey(id));
    } else if Captured(rs, HexKey(id)) {
      var i: nat :| i < |rs| && CapturedAt(rs, HexKey(id), i);
      assert CapturedAt(rs1, HexKey(id), i);
    }
  }

  /** Once init_plugins has run, and whatever toggles and restarts come after it, another
      init_plugins over the same plugins leaves the registry as it is. */
  lemma {:induction false} SecondInitChangesNothing(rs: seq<Record>, found: seq<Plugin>, es: seq<Event>)
    requires KeysFit(rs) && forall e | e in es :: Possible(e)
    ensures KeysFit(Init(rs, found).records)
    ensures var s := Run(Init(rs, found), es); Init(s.records, found).records == s.records
  {
    hide Step, HexKey, Find8, Run, Extends, InitRecords, Known;
    InitKeepsFit(rs, found, |found|);
    var s := Init(rs, found);
    var t := Run(s, es);
    InitSettles(rs, found);
    RunExtends(s, es);
    forall p | p in found ensures Find8(t.records, HexKey(p.id)) < |t.records| {
      ExtendsLength(s.records, t.records);
      MatchedStays(s.records, t.records, p.id);
    }
    SettledIsKept(t.records, found, |found|);
  }

  /** init_plugins, a successful ktshSetPluginState on plugin i, and init_plugins after a restart. */
  function SetAndRestart(rs: seq<Record>, found: seq<Plugin>, i: nat, on: bool, stack: seq<Byte>): (s: System)
    requires KeysFit(rs) && Possible(Restart(found)) && i < |found| && |stack| == KEY_SIZE
    ensures |s.plugins| == |found|
  {
    InitKeepsFit(rs, found, |found|);
    Init(Step(Init(rs, found), SetState(found[i].id, on, 0, stack)).records, found)
  }

  lemma {:induction false} InitAppends(rs: seq<Record>, ps: seq<Plugin>, k: nat)
    requires k <= |ps|
    ensures rs <= InitRecords(rs, ps, k)
  {
    hide NewRecord, HexKey, Find8;
    if k > 0 { InitAppends(rs, ps, k - 1); }
  }

  lemma {:induction false} SetStep(rs: seq<Record>, found: seq<Plugin>, i: nat, on: bool, stack: seq<Byte>)
      returns (rest: seq<Byte>)
    requires KeysFit(rs) && Possible(Restart(found)) && i < |found| && |stack| == KEY_SIZE
    ensures |rest| == KEY_SIZE && KeysFit(Init(rs, found).records)
    ensures SetAndRestart(rs, found, i, on, stack) ==
            Init(Updated(Init(rs, found).records, HexKey(found[i].id), if on then 1 else 0, rest), found)
  {
    hide Updated, HexKey, InitRecords;
    InitKeepsFit(rs, found, |found|);
    var s := Init(rs, found);
    assert s.plugins[i].id == found[i].id;
    rest := if s.records == [] then stack else s.records[|s.records| - 1].key;
  }

  /** When the key is not captured the state set is the state after the restart. */
  lemma {:induction false} UncapturedSurvives(rs: seq<Record>, found: seq<Plugin>, i: nat, on: bool, stack: seq<Byte>)
    requires KeysFit(rs) && Possible(Restart(found)) && i < |found| && |stack| == KEY_SIZE
    requires !Captured(rs, HexKey(found[i].id))
    ensures SetAndRestart(rs, found, i, on, stack).plugins[i].enabled == on
  {
    hide Captured, Updated, HexKey, InitRecords, Truth, Extends, SetAndRestart;
    var id := found[i].id;
    var rest := SetStep(rs, found, i, on, stack);
    var s := Init(rs, found);
    var r := Updated(s.records, HexKey(id), if on then 1 else 0, rest);
    InitExtends(rs, found, 0, |found|);
    InitNone(rs, found);
    UpdatedExtends(s.records, id, on, rest);
    if Captured(r, HexKey(id)) {
      CapturedStays(s.records, r, HexKey(id));
      CapturedStays(rs, s.records, HexKey(id));
    }
    SetTruth(s.records, id, on, rest, id);
    InitAgrees(r, found, i);
  }

  /** An exact record is always a match, so init_plugins never looks past it. */
  lemma {:induction false} OwnRecordMatches(rs: seq<Record>, id: Word)
    ensures Find8(rs, HexKey(id)) <= Find(rs, HexKey(id))
  {
    hide HexKey, Text, Find, Find8, Match8;
    var m := Find(rs, HexKey(id));
    if m < |rs| {
      HexKeyFits(id);
      MatchMeans(rs[m], id);
    }
  }

  lemma {:induction false} CapturedSlot(rs: seq<Record>, id: Word)
    requires Captured(rs, HexKey(id))
    ensures var k := Find8(rs, HexKey(id)); k < |rs| && Text(rs[k].key) != HexKey(id)
  {
    hide HexKey, Text, Find, Find8, Captured;
    FindsOwnRecordIff(rs, id);
    OwnRecordMatches(rs, id);
  }

  lemma {:induction false} UpdatedKeepsOthers(rs: seq<Record>, key: seq<Byte>, value: Int32, rest: seq<Byte>, k: nat)
    requires IsText(key) && |rest| == KEY_SIZE && k < |rs| && Text(rs[k].key) != key
    ensures var r := Updated(rs, key, value, rest); k < |r| && r[k] == rs[k]
  {
    hide Text, Find, StrNCopy;
  }

  lemma {:induction false} MatchedAt(rs: seq<Record>, p: Plugin, k: nat)
    requires k < |rs| && Find8(rs, HexKey(p.id)) == k
    ensures Matched(rs, p).enabled == (rs[k].value != 0)
  {
    hide HexKey, Find8;
  }

  /** When it is captured the state after the restart is the capturing record's, whatever was set. */
  lemma {:induction false} CapturedDecides(rs: seq<Record>, found: seq<Plugin>, i: nat, on: bool, stack: seq<Byte>)
    requires KeysFit(rs) && Possible(Restart(found)) && i < |found| && |stack| == KEY_SIZE
    requires Captured(rs, HexKey(found[i].id))
    ensures Find8(rs, HexKey(found[i].id)) < |rs|
    ensures SetAndRestart(rs, found, i, on, stack).plugins[i].enabled ==
            (rs[Find8(rs, HexKey(found[i].id))].value != 0)
  {
    hide Captured, HexKey, InitRecords, Extends, SetAndRestart, Text, Find, Find8, Updated, Matched;
    var id := found[i].id;
    var k := Find8(rs, HexKey(id));
    CapturedSlot(rs, id);
    var rest := SetStep(rs, found, i, on, stack);
    var t := Init(rs, found).records;
    var r := Updated(t, HexKey(id), if on then 1 else 0, rest);
    InitKeepsSlot(rs, found, |found|, id);
    UpdatedKeepsOthers(t, HexKey(id), if on then 1 else 0, rest, k);
    UpdatedExtends(t, id, on, rest);
    MatchedStays(t, r, id);
    InitKeepsSlot(r, found, i, id);
    MatchedAt(InitRecords(r, found, i), found[i], k);
  }

  /** init_plugins goes on taking the same record for a plugin, with the same value. */
  lemma {:induction false} InitKeepsSlot(rs: seq<Record>, ps: seq<Plugin>, n: nat, id: Word)
    requires n <= |ps| && Find8(rs, HexKey(id)) < |rs|
    ensures var k := Find8(rs, HexKey(id));
            var t := InitRecords(rs, ps, n);
            k < |t| && t[k] == rs[k] && Find8(t, HexKey(id)) == k
  {
    hide HexKey, InitRecords, Extends, Find8;
    InitAppends(rs, ps, n);
    InitExtends(rs, ps, 0, n);
    InitNone(rs, ps);
    MatchedStays(rs, InitRecords(rs, ps, n), id);
  }

  /** A state set for a plugin survives the next restart, whichever state it is, if and only if no
      longer record captures its key. */
  lemma {:induction false} StateSurvivesRestartIff(rs: seq<Record>, found: seq<Plugin>, i: nat, stack: seq<Byte>)
    requires KeysFit(rs) && Possible(Restart(found)) && i < |found| && |stack| == KEY_SIZE
    ensures (forall on :: SetAndRestart(rs, found, i, on, stack).plugins[i].enabled == on)
            <==> !Captured(rs, HexKey(found[i].id))
  {
    hide Captured, HexKey, SetAndRestart, Find8;
    if Captured(rs, HexKey(found[i].id)) {
      CapturedDecides(rs, found, i, true, stack);
      CapturedDecides(rs, found, i, false, stack);
      assert SetAndRestart(rs, found, i, true, stack).plugins[i].enabled ==
             SetAndRestart(rs, found, i, false, stack).plugins[i].enabled;
    } else {
      forall on ensures SetAndRestart(rs, found, i, on, stack).plugins[i].enabled == on {
        UncapturedSurvives(rs, found, i, on, stack);
      }
    }
  }
}

/** The same on the heap: the plugin list and the registry file. */
module PluginManager {
  import opened CString
  import opened RegistryFormat
  import opened Registry
  import opened RegistryReads
  import opened TshList
  import opened InstanceModel
  import opened Instances
  import opened HexKeys
  import opened PluginModel
  import opened PluginRuns

  /** The int a 32-bit id becomes as a list key. */
  function AsInt(id: Word): (i: int)
    ensures -0x8000_0000 <= i < 0x8000_0000 && i % 0x1_0000_0000 == id
  {
    if id < 0x8000_0000 then id else id - 0x1_0000_0000
  }

  /** The records a load finds: none in a missing file. */
  function Stored(data: seq<Byte>): (rs: seq<Record>)
    requires data == [] || WellFormed(data)
    ensures KeysFit(rs)
  {
    if data == [] then [] else Records(data)
  }

  /** Searching by the key is searching by the id. */
  lemma {:induction false} KeyIndex(es: seq<Entry<Plugin>>, id: Word)
    requires forall i | 0 <= i < |es| :: es[i].key == AsInt(es[i].data.id)
    ensures IndexOf(es, AsInt(id)) == PluginIndex(Values(es), id)
    decreases |es|
  {
    if es != [] && es[0].key != AsInt(id) {
      KeyIndex(es[1..], id);
      assert Values(es)[1..] == Values(es[1..]);
    }
  }

  lemma {:induction false} StoredWhole(rs: seq<Record>)
    requires KeysFit(rs)
    ensures WellFormed(HEADER + EncodeAll(rs)) && Stored(HEADER + EncodeAll(rs)) == rs
  {
    StoredIsRead(HEADER, rs);
  }

  /** registry_set on the file, seen as an update of the stored records. */
  lemma {:induction false} StoredSet(data: seq<Byte>, stack: seq<Byte>, id: Word, value: Int32)
    requires (data == [] || WellFormed(data)) && |stack| == ENTRY_SIZE
    ensures var was := if data == [] then HEADER else data;
            var rs := Stored(data);
            && |was| >= HEADER_SIZE
            && WellFormed(SetBytes(was, stack, HexKey(id), value))
            && Stored(SetBytes(was, stack, HexKey(id), value)) ==
                 Updated(rs, HexKey(id), value, if rs == [] then stack[..KEY_SIZE] else rs[|rs| - 1].key)
  {
    hide SetBytes, Updated, HexKey, Slot;
    HexKeyFits(id);
    SetBytesUpdates(if data == [] then HEADER else data, stack, HexKey(id), value);
  }

  lemma {:induction false} StoredRead(data: seq<Byte>, stack: seq<Byte>)
    requires (data == [] || WellFormed(data)) && |stack| == ENTRY_SIZE
    ensures |data| >= HEADER_SIZE ==> ReadRecords(data, stack) == Stored(data)
    ensures |data| < HEADER_SIZE ==> Stored(data) == []
  {
    if data != [] { WholeRecords(data, stack); }
  }

  /** The instances after a plugin was switched on or off; pid is where it runs. */
  function Toggled(m: Model, p: Plugin, on: bool, uid: int, pid: int, roomPid: bool, roomInstance: bool): Model {
    if !on then Unloaded(m, AsInt(p.id))
    else if (p.kernel || p.shell) && uid >= 0 then Created(m, AsInt(p.id), pid, uid, roomPid, roomInstance)
    else m
  }

  /** What runs after a toggle: switching on a kernel plugin, or another that is a shell plugin, adds
      the loaded module in the kernel or the shell, if it could be loaded and recorded; switching on
      any other adds nothing; switching off takes away what is unloaded. */
  lemma {:induction false} ToggleRuns(m: Model, p: Plugin, on: bool, uid: int, kernelPid: int, shellPid: int,
      roomPid: bool, roomInstance: bool)
    ensures var pid := if p.kernel then kernelPid else shellPid;
            var r := Toggled(m, p, on, uid, pid, roomPid, roomInstance);
            var recorded := (IndexOf(m, pid) < |m| || roomPid) && roomInstance;
            && (!on ==> Running(m) == Running(r) + multiset(UnloadCalls(m, AsInt(p.id))))
            && (on && (uid < 0 || !recorded || (!p.kernel && !p.shell)) ==> Running(r) == Running(m))
            && (on && uid >= 0 && recorded && p.kernel ==>
                  Running(r) == Running(m) + multiset{StopUnload(kernelPid, uid)})
            && (on && uid >= 0 && recorded && !p.kernel && p.shell ==>
                  Running(r) == Running(m) + multiset{StopUnload(shellPid, uid)})
  {
    hide Running, Created, Unloaded, UnloadCalls, AsInt, IndexOf;
    if on {
      LoadConserves(m, AsInt(p.id), if p.kernel then kernelPid else shellPid, uid, roomPid, roomInstance);
    } else {
      UnloadConserves(m, AsInt(p.id));
    }
  }

  /** The plugin list when init_plugins has dealt with the first k. */
  function PartlyMatched(rs: seq<Record>, ps: seq<Plugin>, k: nat): (r: seq<Plugin>)
    requires k <= |ps|
    ensures |r| == |ps|
    ensures forall i | 0 <= i < |ps| :: r[i] == if i < k then Matched(InitRecords(rs, ps, i), ps[i]) else ps[i]
  {
    Init(rs, ps).plugins[..k] + ps[k..]
  }

  lemma {:induction false} InitStarts(rs: seq<Record>, ps: seq<Plugin>)
    ensures PartlyMatched(rs, ps, 0) == ps && InitRecords(rs, ps, 0) == rs
  {}

  lemma {:induction false} PartlyNext(rs: seq<Record>, ps: seq<Plugin>, k: nat)
    requires k < |ps|
    ensures PartlyMatched(rs, ps, k)[k] == ps[k]
    ensures PartlyMatched(rs, ps, k + 1) == PartlyMatched(rs, ps, k)[k := Matched(InitRecords(rs, ps, k), ps[k])]
    ensures InitRecords(rs, ps, k + 1) == Known(InitRecords(rs, ps, k), ps[k].id)
    ensures |rs| <= |InitRecords(rs, ps, k)| <= |InitRecords(rs, ps, k + 1)|
  {
    hide Matched, Known, Init, PartlyMatched;
    InitGrows(rs, ps, k);
    KnownGrows(InitRecords(rs, ps, k), ps[k].id);
  }

  lemma {:induction false} InitGrows(rs: seq<Record>, ps: seq<Plugin>, k: nat)
    requires k <= |ps|
    ensures |rs| <= |InitRecords(rs, ps, k)|
    ensures |rs| == |InitRecords(rs, ps, k)| ==> InitRecords(rs, ps, k) == rs
  {
    hide Known;
    if k > 0 {
      InitGrows(rs, ps, k - 1);
      KnownGrows(InitRecords(rs, ps, k - 1), ps[k - 1].id);
    }
  }

  lemma {:induction false} KnownGrows(rs: seq<Record>, id: Word)
    ensures |rs| <= |Known(rs, id)| && (|rs| == |Known(rs, id)| ==> Known(rs, id) == rs)
  {}

  lemma {:induction false} PartlyAll(rs: seq<Record>, ps: seq<Plugin>)
    ensures Init(rs, ps) == System(PartlyMatched(rs, ps, |ps|), InitRecords(rs, ps, |ps|))
  {}

  lemma {:induction false} InitEnds(rs: seq<Record>, ps: seq<Plugin>)
    ensures Init(rs, ps).records == InitRecords(rs, ps, |ps|)
    ensures |Init(rs, ps).records| <= |rs| ==> Init(rs, ps).records == rs
  {
    InitGrows(rs, ps, |ps|);
  }

  lemma {:induction false} MatchCases(rs: seq<Record>, p: Plugin)
    ensures var k := Find8(rs, HexKey(p.id));
            if k < |rs| then Known(rs, p.id) == rs && Matched(rs, p) == p.(enabled := rs[k].value != 0)
            else Known(rs, p.id) == rs + [NewRecord(HexKey(p.id))] && Matched(rs, p) == p
  {
    hide Find8, HexKey, NewRecord;
  }

  lemma {:induction false} SetCases(s: System, id: Word, on: bool, uid: int, stack: seq<Byte>)
    requires KeysFit(s.records) && |stack| == KEY_SIZE
    ensures var k := PluginIndex(s.plugins, id);
            var last := if s.records == [] then stack else s.records[|s.records| - 1].key;
            Step(s, SetState(id, on, uid, stack)) ==
            if k == |s.plugins| || (on && LoadResult(s.plugins[k], uid) < 0) then s
            else System(s.plugins[k := s.plugins[k].(enabled := on)],
                        Updated(s.records, HexKey(id), if on then 1 else 0, last))
  {
    hide Updated, HexKey, PluginIndex;
  }

  class Manager {
    const plugins: List<Plugin>
    const file: File

    ghost predicate Valid()
      reads this, plugins, plugins.nodes, file
    {
      && plugins.Valid()
      && (forall i | 0 <= i < |plugins.nodes| :: plugins.nodes[i].key == AsInt(plugins.nodes[i].data.id))
      && (file.data == [] || WellFormed(file.data))
    }

    ghost function Contents(): (s: System)
      requires Valid()
      reads this, plugins, plugins.nodes, file
      ensures KeysFit(s.records)
    {
      System(Values(plugins.Entries()), Stored(file.data))
    }

    constructor (data: seq<Byte>)
      requires data == [] || WellFormed(data)
      ensures Valid() && Contents() == System([], Stored(data))
      ensures fresh(plugins) && fresh(file) && plugins.nodes == []
    {
      plugins := new List<Plugin>();
      file := new File(data);
    }

    /** The list step of load_tai: a plugin found, with its state not known yet. */
    method AddFound(p: Plugin)
      requires Valid()
      modifies plugins, plugins.nodes
      ensures Valid() && Contents() == System(old(Contents()).plugins + [p], old(Contents()).records)
      ensures file.data == old(file.data) && fresh(set x | x in plugins.nodes && x !in old(plugins.nodes))
    {
      var _ := plugins.Push(AsInt(p.id), p, true);
    }

    /** The instances are kept apart from the plugin list and the file. */
    ghost predicate Apart(store: Store, kernel: Kernel)
      reads this, plugins, store
    {
      && this !in store.Repr && plugins !in store.Repr && file !in store.Repr && kernel !in store.Repr
      && forall x | x in plugins.nodes :: x !in store.Repr
    }

    /** ktshSetPluginState. uid is what loading the module gives; roomPid and roomInstance say
        whether the allocations of create_instance succeed. */
    method SetPluginState(
        id: Word, on: bool, uid: int, stack: seq<Byte>, store: Store, kernel: Kernel,
        kernelPid: int, shellPid: int, roomPid: bool, roomInstance: bool)
      returns (ret: int)
      requires Valid() && |stack| == ENTRY_SIZE && store.Valid() && Apart(store, kernel)
      modifies plugins.nodes, file, store.Repr, kernel
      ensures Valid() && store.Valid() && Apart(store, kernel)
      ensures plugins.nodes == old(plugins.nodes) && fresh(store.Repr - old(store.Repr))
      ensures Contents() == Step(old(Contents()), SetState(id, on, uid, stack[..KEY_SIZE]))
      ensures var ps := old(Contents()).plugins;
              var k := PluginIndex(ps, id);
              if k == |ps| then
                ret == -1 && store.Contents() == old(store.Contents()) && kernel.calls == old(kernel.calls)
              else
                && ret == (if on then LoadResult(ps[k], uid) else 0)
                && store.Contents() == Toggled(old(store.Contents()), ps[k], on, uid,
                     if ps[k].kernel then kernelPid else shellPid, roomPid, roomInstance)
                && kernel.calls == old(kernel.calls) +
                     if on then [] else UnloadCalls(old(store.Contents()), AsInt(id))
    {
      hide Valid, Contents, Updated, HexKey, PluginIndex, List.Valid, List.Entries, Stored, AsInt,
        Store.Valid, Store.Contents, Created, Unloaded, UnloadCalls, Step;
      SetCases(Contents(), id, on, uid, stack[..KEY_SIZE]);
      ghost var k := PluginIndex(Contents().plugins, id);
      var node := FindPlugin(id);
      if node == null { return -1; }
      ret := Switch(node.data, on, uid, store, kernel, kernelPid, shellPid, roomPid, roomInstance);
      if !on || (on && ret >= 0) {
        StoreState(id, on, stack);
        SetEnabled(node, k, on);
      }
    }

    /** The module itself, lines 363-369. */
    method Switch(plugin: Plugin, on: bool, uid: int, store: Store, kernel: Kernel,
        kernelPid: int, shellPid: int, roomPid: bool, roomInstance: bool)
      returns (ret: int)
      requires Valid() && store.Valid() && Apart(store, kernel)
      modifies store.Repr, kernel
      ensures Valid() && store.Valid() && Contents() == old(Contents()) && Apart(store, kernel)
      ensures plugins.nodes == old(plugins.nodes) && fresh(store.Repr - old(store.Repr))
      ensures ret == if on then LoadResult(plugin, uid) else 0
      ensures store.Contents() == Toggled(old(store.Contents()), plugin, on, uid,
                if plugin.kernel then kernelPid else shellPid, roomPid, roomInstance)
      ensures kernel.calls == old(kernel.calls) +
                if on then [] else UnloadCalls(old(store.Contents()), AsInt(plugin.id))
    {
      hide Valid, Contents, Store.Valid, Store.Contents, Created, Unloaded, UnloadCalls, AsInt;
      ret := 0;
      if on {
        if plugin.kernel {
          ret := LoadPlugin(plugin, kernelPid, uid, store, kernel, roomPid, roomInstance);
        } else if plugin.shell {
          ret := LoadPlugin(plugin, shellPid, uid, store, kernel, roomPid, roomInstance);
        }
      } else {
        Unload(plugin, store, kernel);
      }
    }

    /** load_plugin */
    method LoadPlugin(plugin: Plugin, pid: int, uid: int, store: Store, kernel: Kernel,
        roomPid: bool, roomInstance: bool)
      returns (ret: int)
      requires Valid() && store.Valid() && Apart(store, kernel)
      modifies store.Repr
      ensures Valid() && store.Valid() && Contents() == old(Contents()) && Apart(store, kernel)
      ensures plugins.nodes == old(plugins.nodes) && fresh(store.Repr - old(store.Repr))
      ensures ret == if uid < 0 then uid else 0
      ensures store.Contents() == if uid < 0 then old(store.Contents())
                                  else Created(old(store.Contents()), AsInt(plugin.id), pid, uid, roomPid, roomInstance)
    {
      hide Store.Valid, Store.Contents, Created, AsInt;
      if uid < 0 { return uid; }
      store.CreateInstance(AsInt(plugin.id), pid, uid, roomPid, roomInstance);
      ret := 0;
    }

    method Unload(plugin: Plugin, store: Store, kernel: Kernel)
      requires Valid() && store.Valid() && Apart(store, kernel)
      modifies store.Repr, kernel
      ensures Valid() && store.Valid() && Contents() == old(Contents()) && Apart(store, kernel)
      ensures plugins.nodes == old(plugins.nodes) && store.Repr == old(store.Repr)
      ensures store.Contents() == Unloaded(old(store.Contents()), AsInt(plugin.id))
      ensures kernel.calls == old(kernel.calls) + UnloadCalls(old(store.Contents()), AsInt(plugin.id))
    {
      hide Store.Valid, Store.Contents, Unloaded, UnloadCalls, AsInt;
      store.UnloadPlugin(AsInt(plugin.id), kernel);
    }

    method FindPlugin(id: Word) returns (node: Node?<Plugin>)
      requires Valid()
      ensures var ps := Contents().plugins; var k := PluginIndex(ps, id);
              if k < |ps| then |ps| == |plugins.nodes| && node == plugins.nodes[k] && node.data == ps[k]
              else node == null
    {
      node := plugins.Find(AsInt(id));
      KeyIndex(plugins.Entries(), id);
    }

    /** registry_set, seen as an update of the stored records. */
    method StoreState(id: Word, on: bool, stack: seq<Byte>)
      requires Valid() && |stack| == ENTRY_SIZE
      modifies file
      ensures Valid() && plugins.nodes == old(plugins.nodes)
      ensures var rs := old(Contents()).records;
              var last := if rs == [] then stack[..KEY_SIZE] else rs[|rs| - 1].key;
              Contents() == System(old(Contents()).plugins, Updated(rs, HexKey(id), if on then 1 else 0, last))
    {
      hide Stored, SetBytes, HexKey, Updated, List.Valid, WellFormed;
      StoredSet(file.data, stack, id, if on then 1 else 0);
      var _ := file.Set(HexKey(id), if on then 1 else 0, stack);
    }

    method SetEnabled(node: Node<Plugin>, ghost k: nat, on: bool)
      requires Valid() && k < |plugins.nodes| && node == plugins.nodes[k]
      modifies node`data
      ensures Valid()
      ensures var s := old(Contents());
              Contents() == System(s.plugins[k := s.plugins[k].(enabled := on)], s.records)
    {
      plugins.SetData(node, k, node.data.(enabled := on));
    }

    /** init_plugins, over the plugins find_plugins has listed. */
    method InitPlugins(stack: seq<Byte>)
      requires Valid() && |stack| == ENTRY_SIZE
      modifies plugins.nodes, file
      ensures Valid()
      ensures Contents() == Init(old(Contents()).records, old(Contents()).plugins)
      ensures Contents().records == old(Contents()).records ==> file.data == old(file.data)
    {
      hide Valid, Contents, List.Valid, List.Entries, Stored, Init, InitRecords, Values, WellFormed;
      ghost var ps, rs := Contents().plugins, Contents().records;
      var pstate := LoadState(stack);
      var modified := MatchAll(pstate);
      InitEnds(rs, ps);
      if modified {
        InitKeepsFit(rs, ps, |ps|);
        StoreAll(pstate);
      }
    }

    /** init_plugins has dealt with the first k plugins; rs is what was loaded. */
    ghost predicate MatchedTo(s: System, rs: seq<Record>, k: nat, pstate: List<Record>, modified: bool)
      reads this, plugins, plugins.nodes, file, pstate, pstate.nodes
    {
      && Valid() && pstate.Valid()
      && k <= |s.plugins| == |plugins.nodes|
      && Contents() == System(PartlyMatched(rs, s.plugins, k), s.records)
      && Values(pstate.Entries()) == InitRecords(rs, s.plugins, k)
      && modified == (|InitRecords(rs, s.plugins, k)| > |rs|)
    }

    lemma {:induction false} NoneMatched(pstate: List<Record>)
      requires Valid() && pstate.Valid()
      ensures MatchedTo(Contents(), Values(pstate.Entries()), 0, pstate, false)
    {
      hide List.Valid, List.Entries, Stored, Init, InitRecords, PartlyMatched, Values;
      InitStarts(Values(pstate.Entries()), Contents().plugins);
      assert |Contents().plugins| == |plugins.nodes|;
    }

    lemma {:induction false} AllMatched(s: System, rs: seq<Record>, pstate: List<Record>, modified: bool)
      requires MatchedTo(s, rs, |s.plugins|, pstate, modified)
      ensures Valid() && pstate.Valid()
      ensures Contents() == System(Init(rs, s.plugins).plugins, s.records)
      ensures Values(pstate.Entries()) == Init(rs, s.plugins).records
      ensures modified == (|Init(rs, s.plugins).records| > |rs|)
    {
      hide Valid, Contents, List.Valid, List.Entries, Init, InitRecords, PartlyMatched, Values;
      PartlyAll(rs, s.plugins);
    }

    /** Its loop; whether a record was added. */
    method MatchAll(pstate: List<Record>) returns (modified: bool)
      requires Valid() && pstate.Valid()
      modifies plugins.nodes, pstate, pstate.nodes
      ensures Valid() && pstate.Valid()
      ensures var s, rs := old(Contents()), old(Values(pstate.Entries()));
              && Contents() == System(Init(rs, s.plugins).plugins, s.records)
              && Values(pstate.Entries()) == Init(rs, s.plugins).records
              && modified == (|Init(rs, s.plugins).records| > |rs|)
    {
      hide Valid, Contents, List.Valid, List.Entries, Init, Values, MatchedTo;
      ghost var s, rs := Contents(), Values(pstate.Entries());
      var node := First();
      modified := false;
      ghost var k := 0;
      NoneMatched(pstate);
      if node != null {
        while true
          invariant Valid() && k < |s.plugins| == |plugins.nodes| && node == plugins.nodes[k]
          invariant pstate.Valid() && fresh(set x | x in pstate.nodes && x !in old(pstate.nodes))
          invariant MatchedTo(s, rs, k, pstate, modified)
          decreases |s.plugins| - k
        {
          modified := MatchNext(s, rs, node, k, pstate, modified);
          node := Next(node, k);
          k := k + 1;
          if node == null { break; }
        }
      }
      AllMatched(s, rs, pstate, modified);
    }

    /** The body of the loop, with what it adds to modified. */
    method MatchNext(ghost s: System, ghost rs: seq<Record>, node: Node<Plugin>, ghost k: nat,
        pstate: List<Record>, modified: bool)
      returns (now: bool)
      requires MatchedTo(s, rs, k, pstate, modified) && k < |s.plugins| && Valid()
      requires k < |plugins.nodes| && node == plugins.nodes[k] && pstate.Valid()
      modifies node`data, pstate, pstate.nodes
      ensures Valid() && pstate.Valid() && fresh(set x | x in pstate.nodes && x !in old(pstate.nodes))
      ensures MatchedTo(s, rs, k + 1, pstate, now)
    {
      hide Valid, Contents, List.Valid, List.Entries, Matched, Known, InitRecords, PartlyMatched, Values;
      PartlyNext(rs, s.plugins, k);
      var added := MatchPlugin(node, k, pstate);
      now := modified || added;
    }

    method LoadState(stack: seq<Byte>) returns (pstate: List<Record>)
      requires Valid() && |stack| == ENTRY_SIZE
      modifies file
      ensures Valid() && Contents() == old(Contents()) && file.data == old(file.data)
      ensures fresh(pstate) && fresh(pstate.nodes) && pstate.Valid()
      ensures Values(pstate.Entries()) == Contents().records
    {
      hide Stored, ReadRecords, List.Valid, WellFormed;
      StoredRead(file.data, stack);
      pstate := new List<Record>();
      var _ := file.GetList(pstate, stack);
    }

    method StoreAll(pstate: List<Record>)
      requires Valid() && pstate.Valid() && pstate.nodes != [] && KeysFit(Values(pstate.Entries()))
      modifies file
      ensures Valid() && Contents() == System(old(Contents()).plugins, Values(pstate.Entries()))
    {
      hide List.Valid, List.Entries, Values, Stored, WellFormed, KeysFit, EncodeAll;
      StoredWhole(Values(pstate.Entries()));
      var _ := file.StoreList(pstate);
    }

    method First() returns (node: Node?<Plugin>)
      requires Valid()
      ensures |plugins.nodes| == |Contents().plugins|
      ensures if |plugins.nodes| == 0 then node == null else node == plugins.nodes[0]
    {
      node := plugins.head;
    }

    method Next(node: Node<Plugin>, ghost k: nat) returns (next: Node?<Plugin>)
      requires Valid() && k < |plugins.nodes| && node == plugins.nodes[k]
      ensures if k + 1 < |plugins.nodes| then next == plugins.nodes[k + 1] else next == null
    {
      assert LinkedAt(plugins.nodes, k);
      next := node.next;
    }

    /** The body of init_plugins' loop. */
    method MatchPlugin(node: Node<Plugin>, ghost k: nat, pstate: List<Record>) returns (added: bool)
      requires Valid() && k < |plugins.nodes| && node == plugins.nodes[k] && pstate.Valid()
      modifies node`data, pstate, pstate.nodes
      ensures Valid() && pstate.Valid() && fresh(set x | x in pstate.nodes && x !in old(pstate.nodes))
      ensures var s, rs := old(Contents()), old(Values(pstate.Entries()));
              && Contents() == System(s.plugins[k := Matched(rs, s.plugins[k])], s.records)
              && Values(pstate.Entries()) == Known(rs, s.plugins[k].id)
              && added == (|Known(rs, s.plugins[k].id)| > |rs|)
    {
      hide Contents, Valid, HexKey, Find8, NewRecord, Stored, WellFormed, List.Valid, List.Entries, Known, Matched;
      var id := IdOf(node, k);
      MatchCases(Values(pstate.Entries()), Contents().plugins[k]);
      var key := HexKey(id);
      var snode := FindRecord(pstate, key);
      added := snode == null;
      if snode != null {
        CopyState(node, k, snode.data, pstate);
      } else {
        AddRecord(pstate, NewRecord(key));
      }
    }

    /** The plugin takes the state it was found with, and the loaded state stays as it is. */
    method CopyState(node: Node<Plugin>, ghost k: nat, r: Record, pstate: List<Record>)
      requires Valid() && k < |plugins.nodes| && node == plugins.nodes[k] && pstate.Valid()
      modifies node`data
      ensures Valid() && pstate.Valid()
      ensures var s := old(Contents());
              Contents() == System(s.plugins[k := s.plugins[k].(enabled := r.value != 0)], s.records)
      ensures pstate.nodes == old(pstate.nodes) && pstate.Entries() == old(pstate.Entries())
    {
      hide Contents, Valid, Stored, WellFormed;
      SetEnabled(node, k, r.value != 0);
    }

    method IdOf(node: Node<Plugin>, ghost k: nat) returns (id: Word)
      requires Valid() && k < |plugins.nodes| && node == plugins.nodes[k]
      ensures |Contents().plugins| == |plugins.nodes| && id == Contents().plugins[k].id
    {
      id := node.data.id;
    }

    /** list_push on the loaded state, which is no part of the plugin list or the file. */
    method AddRecord(pstate: List<Record>, r: Record)
      requires Valid() && pstate.Valid()
      modifies pstate, pstate.nodes
      ensures Valid() && Contents() == old(Contents()) && pstate.Valid()
      ensures fresh(set x | x in pstate.nodes && x !in old(pstate.nodes))
      ensures Values(pstate.Entries()) == old(Values(pstate.Entries())) + [r]
    {
      var _ := pstate.Push(pstate.n, r, true);
    }

    /** Its inner loop. */
    static method FindRecord(pstate: List<Record>, key: seq<Byte>) returns (snode: Node?<Record>)
      requires pstate.Valid()
      ensures var k := Find8(Values(pstate.Entries()), key);
              if k < |pstate.nodes| then snode == pstate.nodes[k] else snode == null
    {
      ghost var rs := Values(pstate.Entries());
      snode := pstate.head;
      ghost var k := 0;
      if snode != null {
        while true
          invariant k < |pstate.nodes| && snode == pstate.nodes[k]
          invariant forall i | 0 <= i < k :: !Match8(rs[i], key)
          decreases |pstate.nodes| - k
        {
          assert rs[k] == snode.data;
          if StrNEqual(snode.data.key, key, 8) {
            Find8Is(rs, key, k);
            return;
          }
          assert LinkedAt(pstate.nodes, k);
          snode := snode.next;
          k := k + 1;
          if snode == null { break; }
        }
      }
      Find8Is(rs, key, |rs|);
    }
  }

  // Runs on the heap

  /** A step of a run with all that its methods are given. */
  datatype Action =
    | Boot(found: seq<Plugin>, stack: seq<Byte>)
    | Toggle(id: Word, on: bool, uid: int, stack: seq<Byte>, roomPid: bool, roomInstance: bool)

  function EventOf(a: Action): Event
    requires |a.stack| == ENTRY_SIZE
  {
    match a
    case Boot(found, _) => Restart(found)
    case Toggle(id, on, uid, stack, _, _) => SetState(id, on, uid, stack[..KEY_SIZE])
  }

  predicate Occurs(a: Action) {
    |a.stack| == ENTRY_SIZE && Possible(EventOf(a))
  }

  predicate AllOccur(actions: seq<Action>) {
    forall i | 0 <= i < |actions| :: Occurs(actions[i])
  }

  function EventsOf(actions: seq<Action>): (es: seq<Event>)
    requires AllOccur(actions)
    ensures |es| == |actions| && forall i | 0 <= i < |es| :: Occurs(actions[i]) && es[i] == EventOf(actions[i])
    ensures forall e | e in es :: Possible(e)
  {
    seq(|actions|, i requires 0 <= i < |actions| && Occurs(actions[i]) => EventOf(actions[i]))
  }

  lemma {:induction false} RunNext(s: System, actions: seq<Action>)
    requires KeysFit(s.records) && actions != [] && AllOccur(actions)
    ensures Occurs(actions[0]) && AllOccur(actions[1..])
    ensures var t := Step(s, EventOf(actions[0]));
            KeysFit(t.records) && Run(s, EventsOf(actions)) == Run(t, EventsOf(actions[1..]))
  {
    hide Step, Possible, EventOf;
    assert Occurs(actions[0]);
    StepKeepsFit(s, EventOf(actions[0]));
    assert EventsOf(actions)[1..] == EventsOf(actions[1..]);
  }

  /** All that a run writes to. */
  ghost function Footprint(m: Manager, store: Store, kernel: Kernel): set<object>
    reads m, m.plugins, store
  {
    {m.plugins, m.file, kernel} + (set x | x in m.plugins.nodes) + store.Repr
  }

  lemma FileOk(m: Manager)
    requires m.Valid()
    ensures (m.file.data == [] || WellFormed(m.file.data)) && m.Contents().records == Stored(m.file.data)
  {}

  /** find_plugins lists the plugins in the order it comes upon them. */
  method ListFound(data: seq<Byte>, found: seq<Plugin>) returns (m: Manager)
    requires data == [] || WellFormed(data)
    ensures fresh(m.plugins) && fresh(m.plugins.nodes) && fresh(m.file)
    ensures m.Valid() && m.Contents() == System(found, Stored(data))
  {
    hide Stored, WellFormed, Manager.Valid, Manager.Contents, List.Valid;
    m := new Manager(data);
    var i := 0;
    while i < |found|
      invariant i <= |found| && fresh(m.plugins) && fresh(m.plugins.nodes) && fresh(m.file)
      invariant m.Valid() && m.Contents() == System(found[..i], Stored(data))
    {
      m.AddFound(found[i]);
      assert found[..i + 1] == found[..i] + [found[i]];
      i := i + 1;
    }
    assert found[..i] == found;
  }

  /** The instances start out empty, in memory of their own. */
  method NoInstances(m: Manager) returns (store: Store, kernel: Kernel)
    requires m.Valid()
    ensures fresh(store.Repr) && fresh(kernel) && store.Valid() && m.Apart(store, kernel)
    ensures m.Valid() && m.Contents() == old(m.Contents())
  {
    hide Manager.Valid, Manager.Contents, Store.Valid, Store.Contents;
    store := new Store();
    kernel := new Kernel();
  }

  method Initialised(data: seq<Byte>, found: seq<Plugin>, stack: seq<Byte>) returns (m: Manager)
    requires (data == [] || WellFormed(data)) && |stack| == ENTRY_SIZE
    ensures fresh(m.plugins) && fresh(m.plugins.nodes) && fresh(m.file)
    ensures m.Valid() && m.Contents() == Init(Stored(data), found)
  {
    hide Stored, WellFormed, Init, Manager.Valid, Manager.Contents, List.Valid;
    m := ListFound(data, found);
    m.InitPlugins(stack);
  }

  /** A machine with this registry file comes up. */
  method StartUp(data: seq<Byte>, found: seq<Plugin>, stack: seq<Byte>)
    returns (m: Manager, store: Store, kernel: Kernel)
    requires (data == [] || WellFormed(data)) && |stack| == ENTRY_SIZE
    ensures fresh(Footprint(m, store, kernel))
    ensures m.Valid() && store.Valid() && m.Apart(store, kernel)
    ensures m.Contents() == Init(Stored(data), found)
  {
    hide Stored, WellFormed, Init, Manager.Valid, Manager.Contents, Manager.Apart, Store.Valid, List.Valid;
    m := Initialised(data, found, stack);
    store, kernel := NoInstances(m);
  }

  /** Before anything was found. */
  method PowerOn(data: seq<Byte>) returns (m: Manager, store: Store, kernel: Kernel)
    requires data == [] || WellFormed(data)
    ensures fresh(Footprint(m, store, kernel))
    ensures m.Valid() && store.Valid() && m.Apart(store, kernel)
    ensures m.Contents() == System([], Stored(data))
  {
    hide Stored, WellFormed, Manager.Valid, Manager.Contents, Manager.Apart, Store.Valid, List.Valid;
    m := ListFound(data, []);
    store, kernel := NoInstances(m);
  }

  /** One action: a restart keeps the file only, a toggle all objects. */
  method Act(m: Manager, store: Store, kernel: Kernel, a: Action, kernelPid: int, shellPid: int)
    returns (m': Manager, store': Store, kernel': Kernel)
    requires m.Valid() && store.Valid() && m.Apart(store, kernel) && Occurs(a)
    modifies Footprint(m, store, kernel)
    ensures m'.Valid() && store'.Valid() && m'.Apart(store', kernel')
    ensures fresh(Footprint(m', store', kernel') - old(Footprint(m, store, kernel)))
    ensures m'.Contents() == Step(old(m.Contents()), EventOf(a))
  {
    hide Stored, WellFormed, Init, Manager.Valid, Manager.Contents, Store.Valid, Possible;
    match a {
      case Boot(found, stack) =>
        FileOk(m);
        m', store', kernel' := StartUp(m.file.data, found, stack);
      case Toggle(id, on, uid, stack, roomPid, roomInstance) =>
        m', store', kernel' := m, store, kernel;
        var _ := m.SetPluginState(id, on, uid, stack, store, kernel, kernelPid, shellPid, roomPid, roomInstance);
    }
  }

  /** Any run of toggles and restarts, made with the methods above from any registry file, ends
      where the step model says. */
  method Perform(data: seq<Byte>, actions: seq<Action>, kernelPid: int, shellPid: int) returns (m: Manager)
    requires (data == [] || WellFormed(data)) && AllOccur(actions)
    ensures m.Valid() && m.Contents() == Run(System([], Stored(data)), EventsOf(actions))
  {
    hide Stored, WellFormed, Run, Step, EventOf, EventsOf, Occurs, Manager.Apart, Manager.Valid,
      Manager.Contents, Store.Valid, Store.Contents, List.Valid, KeysFit;
    var store, kernel;
    m, store, kernel := PowerOn(data);
    var todo := actions;
    while todo != []
      invariant fresh(Footprint(m, store, kernel))
      invariant m.Valid() && store.Valid() && m.Apart(store, kernel) && AllOccur(todo)
      invariant Run(m.Contents(), EventsOf(todo)) == Run(System([], Stored(data)), EventsOf(actions))
      decreases |todo|
    {
      RunNext(m.Contents(), todo);
      ghost var before := Footprint(m, store, kernel);
      m, store, kernel := Act(m, store, kernel, todo[0], kernelPid, shellPid);
      assert Footprint(m, store, kernel) <= before + (Footprint(m, store, kernel) - before);
      todo := todo[1..];
    }
    RunNone(m.Contents());
  }

  lemma RunNone(s: System)
    requires KeysFit(s.records)
    ensures AllOccur([]) && Run(s, EventsOf([])) == s
  {}
}
