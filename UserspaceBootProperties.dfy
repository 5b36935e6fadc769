// Assembly of the userspace boot properties handed to the guest kernel: the
// qemu flag and hardware name, the logcat specification, the verified-boot and
// user-appended `key=value` options, the foldable device-state XML, and the
// final pass that keeps, for every key, the last value pushed and returns the
// pairs in ascending key order.
//
// Properties whose values come from other subsystems (GPU, camera, display,
// network, ...) are inputs: four segments of pushes in the order the source
// emits them. The string tokenizer, the integer parser and the posture-name
// table are functions passed in as `Host`.

module UserspaceBootProperties {
  import opened Wrappers

  datatype Prop = Prop(key: string, value: string)

  // ---------------------------------------------------------------------
  // Key order and the key-to-value map

  /** Lexicographic order of strings, character by character (std::string's operator<). */
  predicate Below(a: string, b: string)
    decreases |a|
  {
    if a == [] then b != []
    else if b == [] then false
    else if a[0] != b[0] then a[0] < b[0]
    else Below(a[1..], b[1..])
  }

  lemma {:induction false} BelowIrreflexive(a: string)
    ensures !Below(a, a)
    decreases |a|
  {
    if a != [] {
      BelowIrreflexive(a[1..]);
    }
  }

  lemma {:induction false} BelowTransitive(a: string, b: string, c: string)
    requires Below(a, b) && Below(b, c)
    ensures Below(a, c)
    decreases |a|
  {
    if a != [] && a[0] == b[0] && b[0] == c[0] {
      BelowTransitive(a[1..], b[1..], c[1..]);
    }
  }

  lemma {:induction false} BelowTotal(a: string, b: string)
    requires a != b
    ensures Below(a, b) || Below(b, a)
    decreases |a|
  {
    if a != [] && b != [] && a[0] == b[0] {
      BelowTotal(a[1..], b[1..]);
    }
  }

  /** Keys in strictly ascending order, hence unique. */
  predicate StrictlySorted(m: seq<Prop>)
  {
    forall i, j :: 0 <= i < j < |m| ==> Below(m[i].key, m[j].key)
  }

  function Keys(m: seq<Prop>): set<string>
  {
    if m == [] then {} else {m[0].key} + Keys(m[1..])
  }

  predicate HasKey(m: seq<Prop>, k: string)
  {
    exists i :: 0 <= i < |m| && m[i].key == k
  }

  /** The value of the first entry with key `k`. */
  function Lookup(m: seq<Prop>, k: string): Option<string>
  {
    if m == [] then None
    else if m[0].key == k then Some(m[0].value)
    else Lookup(m[1..], k)
  }

  /** `map[key] = value` on a map kept as an ascending list: replace, or insert in place. */
  function Assign(m: seq<Prop>, k: string, v: string): seq<Prop>
  {
    if m == [] then [Prop(k, v)]
    else if m[0].key == k then [Prop(k, v)] + m[1..]
    else if Below(k, m[0].key) then [Prop(k, v)] + m
    else [m[0]] + Assign(m[1..], k, v)
  }

  /** The value of the last pair pushed with key `k`. */
  function Last(params: seq<Prop>, k: string): Option<string>
  {
    if params == [] then None
    else if params[|params| - 1].key == k then Some(params[|params| - 1].value)
    else Last(params[..|params| - 1], k)
  }

  lemma {:induction false} KeyIn(m: seq<Prop>, i: nat)
    requires i < |m|
    ensures m[i].key in Keys(m)
  {
    if i > 0 {
      KeyIn(m[1..], i - 1);
    }
  }

  lemma {:induction false} KeyAt(m: seq<Prop>, key: string)
    requires key in Keys(m)
    ensures HasKey(m, key)
  {
    if m[0].key != key {
      KeyAt(m[1..], key);
      var i :| 0 <= i < |m[1..]| && m[1..][i].key == key;
      assert m[i + 1].key == key;
    }
  }

  lemma {:induction false} AssignKeys(m: seq<Prop>, k: string, v: string)
    ensures Keys(Assign(m, k, v)) == Keys(m) + {k}
  {
    if m == [] {
    } else if m[0].key == k {
      assert ([Prop(k, v)] + m[1..])[1..] == m[1..];
    } else if Below(k, m[0].key) {
      assert ([Prop(k, v)] + m)[1..] == m;
    } else {
      AssignKeys(m[1..], k, v);
      assert ([m[0]] + Assign(m[1..], k, v))[1..] == Assign(m[1..], k, v);
    }
  }

  /** Every key of a sorted list lies above a key below its first entry. */
  lemma AboveFirst(m: seq<Prop>, k: string)
    requires StrictlySorted(m) && m != [] && Below(k, m[0].key)
    ensures forall key :: key in Keys(m) ==> Below(k, key)
  {
    forall key | key in Keys(m) ensures Below(k, key) {
      KeyAt(m, key);
      var i :| 0 <= i < |m| && m[i].key == key;
      if i > 0 {
        BelowTransitive(k, m[0].key, key);
      }
    }
  }

  /** A list is sorted when its head lies below every key of its sorted tail. */
  lemma SortedCons(e: Prop, rest: seq<Prop>)
    requires StrictlySorted(rest)
    requires forall key :: key in Keys(rest) ==> Below(e.key, key)
    ensures StrictlySorted([e] + rest)
  {
    var m := [e] + rest;
    forall i, j | 0 <= i < j < |m| ensures Below(m[i].key, m[j].key) {
      if i == 0 {
        assert m[j].key == rest[j - 1].key;
        KeyIn(rest, j - 1);
      } else {
        assert m[i] == rest[i - 1] && m[j] == rest[j - 1];
      }
    }
  }

  lemma {:induction false} AssignSorted(m: seq<Prop>, k: string, v: string)
    requires StrictlySorted(m)
    ensures StrictlySorted(Assign(m, k, v))
  {
    if m == [] {
    } else if m[0].key == k {
      var rest := m[1..];
      forall key | key in Keys(rest) ensures Below(k, key) {
        KeyAt(rest, key);
        var i :| 0 <= i < |rest| && rest[i].key == key;
        assert rest[i] == m[i + 1];
      }
      SortedCons(Prop(k, v), rest);
    } else if Below(k, m[0].key) {
      AboveFirst(m, k);
      SortedCons(Prop(k, v), m);
    } else {
      var rest := m[1..];
      assert StrictlySorted(rest) by {
        forall i, j | 0 <= i < j < |rest| ensures Below(rest[i].key, rest[j].key) {
          assert rest[i] == m[i + 1] && rest[j] == m[j + 1];
        }
      }
      AssignSorted(rest, k, v);
      AssignKeys(rest, k, v);
      BelowTotal(k, m[0].key);
      forall key | key in Keys(Assign(rest, k, v)) ensures Below(m[0].key, key) {
        if key != k {
          KeyAt(rest, key);
          var i :| 0 <= i < |rest| && rest[i].key == key;
          assert rest[i] == m[i + 1];
        }
      }
      SortedCons(m[0], Assign(rest, k, v));
    }
  }

  lemma {:induction false} AssignLookup(m: seq<Prop>, k: string, v: string, key: string)
    ensures Lookup(Assign(m, k, v), key) == if key == k then Some(v) else Lookup(m, key)
  {
    if m != [] && m[0].key != k && !Below(k, m[0].key) {
      AssignLookup(m[1..], k, v, key);
      assert ([m[0]] + Assign(m[1..], k, v))[1..] == Assign(m[1..], k, v);
    } else if m != [] && m[0].key == k {
      assert ([Prop(k, v)] + m[1..])[1..] == m[1..];
    } else if m != [] {
      assert ([Prop(k, v)] + m)[1..] == m;
    }
  }

  /** In a sorted list every entry is the one Lookup finds for its key. */
  lemma {:induction false} LookupSorted(m: seq<Prop>, i: nat)
    requires StrictlySorted(m) && i < |m|
    ensures Lookup(m, m[i].key) == Some(m[i].value)
  {
    if i > 0 {
      assert Below(m[0].key, m[i].key);
      if m[0].key == m[i].key {
        BelowIrreflexive(m[0].key);
      }
      assert StrictlySorted(m[1..]) by {
        forall a, b | 0 <= a < b < |m[1..]| ensures Below(m[1..][a].key, m[1..][b].key) {
          assert m[1..][a] == m[a + 1] && m[1..][b] == m[b + 1];
        }
      }
      LookupSorted(m[1..], i - 1);
    }
  }

  lemma {:induction false} LookupHasKey(m: seq<Prop>, k: string)
    requires Lookup(m, k).Some?
    ensures HasKey(m, k)
  {
    if m[0].key != k {
      LookupHasKey(m[1..], k);
      var i :| 0 <= i < |m[1..]| && m[1..][i].key == k;
      assert m[i + 1].key == k;
    }
  }

  /** A key is found exactly when some pair pushed it. */
  lemma {:induction false} LastFound(params: seq<Prop>, k: string)
    ensures Last(params, k).Some? <==> HasKey(params, k)
  {
    if params != [] {
      var front := params[..|params| - 1];
      LastFound(front, k);
      if HasKey(params, k) && params[|params| - 1].key != k {
        var i :| 0 <= i < |params| && params[i].key == k;
        assert front[i] == params[i];
      }
      if HasKey(front, k) {
        var i :| 0 <= i < |front| && front[i].key == k;
        assert params[i] == front[i];
      }
    }
  }

  /** The value kept for a key is that of its last push: no later pair may carry the key. */
  lemma {:induction false} LastIsLatest(params: seq<Prop>, n: nat)
    requires n < |params|
    requires forall i :: n < i < |params| ==> params[i].key != params[n].key
    ensures Last(params, params[n].key) == Some(params[n].value)
  {
    if n < |params| - 1 {
      var front := params[..|params| - 1];
      LastIsLatest(front, n);
    }
  }

  /**
   * The final pass: fill the key-to-value map (a later value overrides an
   * earlier one), then list its entries in ascending key order.
   */
  method Dedup(params: seq<Prop>) returns (unique: seq<Prop>)
    ensures StrictlySorted(unique)
    ensures forall i :: 0 <= i < |unique| ==> Last(params, unique[i].key) == Some(unique[i].value)
    ensures forall k :: HasKey(params, k) ==> HasKey(unique, k)
  {
    var keyToVal: seq<Prop> := [];
    var i := 0;
    while i < |params|
      invariant 0 <= i <= |params|
      invariant StrictlySorted(keyToVal)
      invariant forall k :: Lookup(keyToVal, k) == Last(params[..i], k)
    {
      assert params[..i + 1][..i] == params[..i];
      forall k ensures Lookup(Assign(keyToVal, params[i].key, params[i].value), k) == Last(params[..i + 1], k) {
        AssignLookup(keyToVal, params[i].key, params[i].value, k);
      }
      AssignSorted(keyToVal, params[i].key, params[i].value);
      keyToVal := Assign(keyToVal, params[i].key, params[i].value);
      i := i + 1;
    }
    assert params[..i] == params;
    unique := [];
    var j := 0;
    while j < |keyToVal|
      invariant 0 <= j <= |keyToVal|
      invariant unique == keyToVal[..j]
    {
      unique := unique + [keyToVal[j]];
      j := j + 1;
    }
    assert unique == keyToVal;
    forall n | 0 <= n < |unique| ensures Last(params, unique[n].key) == Some(unique[n].value) {
      LookupSorted(unique, n);
    }
    forall k | HasKey(params, k) ensures HasKey(unique, k) {
      LastFound(params, k);
      LookupHasKey(unique, k);
    }
  }

  // ---------------------------------------------------------------------
  // key=value options and the logcat specification

  /** The index of the first `c` in `s` (std::string::find, strchr). */
  function Find(s: string, c: char): (r: Option<nat>)
    ensures r.Some? ==> r.value < |s| && s[r.value] == c && c !in s[..r.value]
    ensures r.None? <==> c !in s
  {
    if s == [] then None
    else if s[0] == c then Some(0)
    else match Find(s[1..], c)
      case None => None
      case Some(i) => assert s[..i + 1] == [s[0]] + s[1..][..i]; Some(i + 1)
  }

  /** A verified-boot or appended option: split at the first '=', or the whole option with "". */
  function SplitOption(option: string): Prop
  {
    match Find(option, '=')
    case None => Prop(option, "")
    case Some(i) => Prop(option[..i], option[i + 1..])
  }

  /** The split loses nothing: the key has no '=' and key, '=' and value give back the option. */
  lemma SplitRoundTrip(option: string)
    ensures '=' !in SplitOption(option).key
    ensures '=' in option ==> SplitOption(option).key + "=" + SplitOption(option).value == option
    ensures '=' !in option ==> SplitOption(option) == Prop(option, "")
  {
    match Find(option, '=')
    case None =>
    case Some(i) =>
      assert option == option[..i] + [option[i]] + option[i + 1..];
  }

  function SplitAll(options: seq<string>): (ps: seq<Prop>)
    ensures |ps| == |options|
    ensures forall i :: 0 <= i < |options| ==> ps[i] == SplitOption(options[i])
  {
    if options == [] then [] else SplitAll(options[..|options| - 1]) + [SplitOption(options[|options| - 1])]
  }

  predicate Blank(c: char)
  {
    c == ' ' || c == '\t'
  }

  /** The logcat option with every space and tab replaced by a comma. */
  function Commas(s: string): string
  {
    seq(|s|, i requires 0 <= i < |s| => if Blank(s[i]) then ',' else s[i])
  }

  /** Same length, no blank left, every other character kept in place. */
  lemma CommasRule(s: string)
    ensures |Commas(s)| == |s|
    ensures forall i :: 0 <= i < |s| ==> !Blank(Commas(s)[i])
    ensures forall i :: 0 <= i < |s| && !Blank(s[i]) ==> Commas(s)[i] == s[i]
  {
  }

  method ReplaceBlanks(s: string) returns (param: string)
    ensures param == Commas(s)
  {
    param := s;
    for i := 0 to |param|
      invariant |param| == |s|
      invariant forall j :: 0 <= j < i ==> param[j] == Commas(s)[j]
      invariant param[i..] == s[i..]
    {
      if Blank(param[i]) {
        param := param[i := ','];
      }
    }
  }

  /** The logcat value: the rewritten option, or "*:V" when no option was given. */
  function LogcatValue(logcat: Option<string>): string
  {
    match logcat
    case None => "*:V"
    case Some(s) => Commas(s)
  }

  // ---------------------------------------------------------------------
  // Device-state configuration

  /** What the build's foldable configuration reports. */
  datatype Foldable = Foldable(
    hingeConfigured: bool, pixelFold: bool, rollable: bool,
    maxHinges: int, hingeCount: int,
    postureList: string, postureValues: string, foldAtPosture: int)

  /** Code outside this file: the tokenizer, std::stoi and the posture-name table. */
  datatype Host = Host(
    split: (string, string) -> seq<string>,
    stoi: string -> int,
    postureName: int -> Option<string>)

  function Digits(n: nat): string
  {
    if n < 10 then [('0' as int + n) as char] else Digits(n / 10) + [('0' as int + n % 10) as char]
  }

  /** std::to_string of an int. */
  function Decimal(n: int): string
  {
    if n < 0 then "-" + Digits(-n) else Digits(n)
  }

  /** The fixed tags of the hinge configuration's XML, between which the variable parts go. */
  datatype Markup = Markup(
    configOpen: string, configClose: string,
    stateOpen: string, identifierClose: string, nameClose: string, stateClose: string,
    sensorOpen: string, sensorNameClose: string, minClose: string, sensorClose: string)

  const MARKUP := Markup(
    "<device-state-config>", "</device-state-config>",
    "<device-state><identifier>", "</identifier><name>", "</name><conditions>",
    "</conditions></device-state>",
    "<sensor><type>android.sensor.hinge_angle</type><name>Goldfish hinge sensor",
    " (in degrees)</name><value><min-inclusive>",
    "</min-inclusive><max-inclusive>", "</max-inclusive></value></sensor>")

  const ROLLABLE_CONFIG :=
    "<device-state-config><device-state><identifier>1</identifier>"
    + "<name>CLOSED</name><conditions><lid-switch><open>false</open>"
    + "</lid-switch></conditions></device-state><device-state>"
    + "<identifier>3</identifier><name>OPENED</name><conditions>"
    + "<lid-switch><open>true</open></lid-switch></conditions>"
    + "</device-state></device-state-config>"

  /** A posture token naming the fold posture (other than 1) is rewritten to "1", the folded state. */
  function Identifier(token: string, foldAt: int): string
  {
    if foldAt != 1 && token == Decimal(foldAt) then "1" else token
  }

  /** An angle range is "min-max" or "min-max-extra". */
  predicate RangeOk(range: seq<string>)
  {
    |range| == 2 || |range| == 3
  }

  function Bound(range: seq<string>, i: nat): string
  {
    if i < |range| then range[i] else ""
  }

  /** The sensor element of hinge `j` with its angle range. */
  function SensorText(m: Markup, j: nat, range: seq<string>): string
  {
    m.sensorOpen + Decimal(j) + m.sensorNameClose + Bound(range, 0) + m.minClose + Bound(range, 1) + m.sensorClose
  }

  predicate SensorsOk(h: Host, ranges: seq<string>)
  {
    forall j :: 0 <= j < |ranges| ==> RangeOk(h.split(ranges[j], "-"))
  }

  /** The sensor elements of the first `k` hinge ranges. */
  function SensorsText(m: Markup, h: Host, ranges: seq<string>, k: nat): string
    requires k <= |ranges|
  {
    if k == 0 then "" else SensorsText(m, h, ranges, k - 1) + SensorText(m, k - 1, h.split(ranges[k - 1], "-"))
  }

  function PostureName(h: Host, f: Foldable, token: string): Option<string>
  {
    h.postureName(h.stoi(Identifier(token, f.foldAtPosture)))
  }

  /** A posture has a name, one angle range per hinge, and well-formed ranges. */
  predicate PostureOk(h: Host, f: Foldable, token: string, value: string)
  {
    PostureName(h, f, token).Some?
    && |h.split(value, "&")| == f.hingeCount
    && SensorsOk(h, h.split(value, "&"))
  }

  /** The device-state element of one posture. */
  function StateText(m: Markup, h: Host, f: Foldable, token: string, value: string): string
  {
    var name := PostureName(h, f, token);
    var ranges := h.split(value, "&");
    StateHead(m, Identifier(token, f.foldAtPosture), if name.Some? then name.value else "")
    + SensorsText(m, h, ranges, |ranges|) + m.stateClose
  }

  function StateHead(m: Markup, id: string, name: string): string
  {
    m.stateOpen + id + m.identifierClose + name + m.nameClose
  }

  /** The first `n` postures are valid. */
  predicate PosturesOk(h: Host, f: Foldable, names: seq<string>, values: seq<string>, n: nat)
    requires n <= |names| == |values|
  {
    forall i :: 0 <= i < n ==> PostureOk(h, f, names[i], values[i])
  }

  predicate StatesOk(h: Host, f: Foldable, names: seq<string>, values: seq<string>)
    requires |names| == |values|
  {
    PosturesOk(h, f, names, values, |names|)
  }

  /** One invalid posture invalidates the whole list. */
  lemma PostureBreaks(h: Host, f: Foldable, names: seq<string>, values: seq<string>, n: nat)
    requires n < |names| == |values| && !PostureOk(h, f, names[n], values[n])
    ensures !StatesOk(h, f, names, values)
  {
  }

  lemma PosturesStep(h: Host, f: Foldable, names: seq<string>, values: seq<string>, n: nat)
    requires n < |names| == |values|
    requires PosturesOk(h, f, names, values, n) && PostureOk(h, f, names[n], values[n])
    ensures PosturesOk(h, f, names, values, n + 1)
  {
  }

  /** The device-state elements of the first `k` postures. */
  function StatesText(m: Markup, h: Host, f: Foldable, names: seq<string>, values: seq<string>, k: nat): string
    requires k <= |names| == |values|
  {
    if k == 0 then "" else StatesText(m, h, f, names, values, k - 1) + StateText(m, h, f, names[k - 1], values[k - 1])
  }

  predicate HingeCountOk(f: Foldable)
  {
    0 <= f.hingeCount <= f.maxHinges
  }

  predicate ListsOk(h: Host, f: Foldable)
  {
    f.postureList != "" && f.postureValues != ""
    && |h.split(f.postureList, ",")| == |h.split(f.postureValues, ",")|
  }

  /** The whole hinge configuration is valid: hinge count, the two lists, every posture. */
  predicate HingeConfigOk(h: Host, f: Foldable)
  {
    HingeCountOk(f) && ListsOk(h, f)
    && StatesOk(h, f, h.split(f.postureList, ","), h.split(f.postureValues, ","))
  }

  /** The XML of a valid hinge configuration: one device-state element per posture. */
  function HingeConfig(m: Markup, h: Host, f: Foldable): string
  {
    var names := h.split(f.postureList, ",");
    var values := h.split(f.postureValues, ",");
    if |names| == |values| then m.configOpen + StatesText(m, h, f, names, values, |names|) + m.configClose else ""
  }

  /**
   * The device-state XML: the hinge postures when the hinge configuration is
   * valid, the fixed rollable configuration, or "" — and "" exactly when
   * neither applies.
   */
  function DeviceState(h: Host, f: Foldable): (r: string)
    ensures r == "" <==> if f.hingeConfigured && !f.pixelFold then !HingeConfigOk(h, f) else !f.rollable
  {
    if f.hingeConfigured && !f.pixelFold then
      if HingeConfigOk(h, f) then HingeConfig(MARKUP, h, f) else ""
    else if f.rollable then ROLLABLE_CONFIG
    else ""
  }

  /** The fold posture's own token becomes state "1"; every other token is kept. */
  lemma FoldPostureRewritten(token: string, foldAt: int)
    ensures foldAt != 1 && token == Decimal(foldAt) ==> Identifier(token, foldAt) == "1"
    ensures token != Decimal(foldAt) ==> Identifier(token, foldAt) == token
  {
  }

  lemma Associative(a: string, b: string, c: string)
    ensures a + b + c == a + (b + c)
  {
  }

  lemma Regroup(before: string, head: string, sensors: string, close: string)
    ensures before + head + sensors + close == before + (head + sensors + close)
  {
  }

  /** Appending the next posture's element extends the configuration by one state. */
  lemma StatesStep(m: Markup, h: Host, f: Foldable, names: seq<string>, values: seq<string>, n: nat)
    requires n < |names| == |values|
    ensures m.configOpen + StatesText(m, h, f, names, values, n) + StateText(m, h, f, names[n], values[n])
            == m.configOpen + StatesText(m, h, f, names, values, n + 1)
  {
    Associative(m.configOpen, StatesText(m, h, f, names, values, n), StateText(m, h, f, names[n], values[n]));
  }

  /** The sensor loop of one posture: one element per hinge range, "" at the first malformed range. */
  method AppendSensors(m: Markup, h: Host, ranges: seq<string>, head: string) returns (ret: string, ok: bool)
    ensures ok <==> SensorsOk(h, ranges)
    ensures ok ==> ret == head + SensorsText(m, h, ranges, |ranges|)
  {
    ret := head;
    var j := 0;
    while j < |ranges|
      invariant 0 <= j <= |ranges|
      invariant forall k :: 0 <= k < j ==> RangeOk(h.split(ranges[k], "-"))
      invariant ret == head + SensorsText(m, h, ranges, j)
    {
      var values := h.split(ranges[j], "-");
      if |values| != 2 && |values| != 3 {
        return "", false;
      }
      Associative(head, SensorsText(m, h, ranges, j), SensorText(m, j, values));
      ret := ret + SensorText(m, j, values);
      j := j + 1;
    }
    return ret, true;
  }

  /** One posture's device-state element, or failure when the posture is invalid. */
  method AppendState(m: Markup, h: Host, f: Foldable, ghost token: string, id: string, value: string, head: string)
    returns (ret: string, ok: bool)
    requires id == Identifier(token, f.foldAtPosture)
    ensures ok <==> PostureOk(h, f, token, value)
    ensures ok ==> ret == head + StateText(m, h, f, token, value)
  {
    var name := h.postureName(h.stoi(id));
    if name.None? {
      return "", false;
    }
    var valuesToken := h.split(value, "&");
    if |valuesToken| != f.hingeCount {
      return "", false;
    }
    ret, ok := AppendSensors(m, h, valuesToken, head + StateHead(m, id, name.value));
    if !ok {
      return "", false;
    }
    Regroup(head, StateHead(m, id, name.value), SensorsText(m, h, valuesToken, |valuesToken|), m.stateClose);
    ret := ret + m.stateClose;
  }

  /** The posture loop: one device-state element per posture, failing at the first invalid one. */
  method AppendStates(m: Markup, h: Host, f: Foldable, names: seq<string>, values: seq<string>)
    returns (ret: string, ok: bool)
    requires |names| == |values|
    ensures ok <==> StatesOk(h, f, names, values)
    ensures ok ==> ret == m.configOpen + StatesText(m, h, f, names, values, |names|)
  {
    var postureListTokens := names;
    ret := m.configOpen;
    var i := 0;
    while i < |postureListTokens|
      invariant 0 <= i <= |names| == |postureListTokens|
      invariant postureListTokens[i..] == names[i..]
      invariant PosturesOk(h, f, names, values, i)
      invariant ret == m.configOpen + StatesText(m, h, f, names, values, i)
    {
      assert postureListTokens[i] == names[i];
      ghost var tail := postureListTokens[i + 1..];
      assert tail == names[i + 1..];
      if f.foldAtPosture != 1 && postureListTokens[i] == Decimal(f.foldAtPosture) {
        postureListTokens := postureListTokens[i := "1"];
        assert postureListTokens[i + 1..] == tail;
      }
      ret, ok := AppendState(m, h, f, names[i], postureListTokens[i], values[i], ret);
      if !ok {
        PostureBreaks(h, f, names, values, i);
        return "", false;
      }
      PosturesStep(h, f, names, values, i);
      StatesStep(m, h, f, names, values, i);
      i := i + 1;
    }
    return ret, true;
  }

  /** Validate the hinge count and the two posture lists, then build the hinge configuration's XML. */
  method BuildHingeConfig(m: Markup, h: Host, f: Foldable) returns (ret: string)
    ensures ret == if HingeConfigOk(h, f) then HingeConfig(m, h, f) else ""
  {
    if f.hingeCount < 0 || f.hingeCount > f.maxHinges {
      return "";
    }
    var postureListTokens := h.split(f.postureList, ",");
    var postureValuesTokens := h.split(f.postureValues, ",");
    if f.postureList == "" || f.postureValues == "" || |postureListTokens| != |postureValuesTokens| {
      return "";
    }
    var ok;
    ret, ok := AppendStates(m, h, f, postureListTokens, postureValuesTokens);
    if !ok {
      return "";
    }
    ret := ret + m.configClose;
  }

  /** getDeviceStateString: the hinge configuration when one is set up (and not a Pixel Fold), else the rollable one. */
  method DeviceStateString(h: Host, f: Foldable) returns (ret: string)
    ensures ret == DeviceState(h, f)
  {
    if f.hingeConfigured && !f.pixelFold {
      ret := BuildHingeConfig(MARKUP, h, f);
      return ret;
    }
    if f.rollable {
      return ROLLABLE_CONFIG;
    }
    return "";
  }

  // ---------------------------------------------------------------------
  // The whole property list

  /**
   * The inputs of one assembly. `early`, `middle`, `late` and `trailing` are
   * the pushes this model does not derive, in source order: `early` follows
   * the hardware name and precedes the logcat specification, `middle` follows
   * it and precedes the verified-boot options, `late` runs from the display
   * settings to the AVD name, and `trailing` follows the user's options.
   */
  datatype BootOptions = BootOptions(
    androidbootProps: bool, androidbootProps2: bool, deviceStateOnBoot: bool,
    logcat: Option<string>, verifiedBoot: Option<seq<string>>, appended: seq<string>,
    early: seq<Prop>, middle: seq<Prop>, late: seq<Prop>, trailing: seq<Prop>)

  const HARDWARE_KEY := "androidboot.hardware"
  const LOGCAT_KEY := "androidboot.logcat"

  /** The "running inside QEMU" flag's key. */
  function QemuFlag(o: BootOptions): string
  {
    if o.androidbootProps2 then "androidboot.qemu" else "qemu"
  }

  /** Only the androidboot property names have a logcat property. */
  function LogcatProps(o: BootOptions): seq<Prop>
  {
    if o.androidbootProps || o.androidbootProps2 then [Prop(LOGCAT_KEY, LogcatValue(o.logcat))] else []
  }

  function VerifiedBootProps(o: BootOptions): seq<Prop>
  {
    match o.verifiedBoot
    case None => []
    case Some(options) => SplitAll(options)
  }

  function DeviceStateKey(o: BootOptions): string
  {
    if o.androidbootProps || o.androidbootProps2 then "androidboot.qemu.device_state" else "qemu.device_state"
  }

  /** The device-state property, pushed only when enabled and the configuration is not empty. */
  function DeviceStateProps(o: BootOptions, state: string): (ps: seq<Prop>)
    ensures HasKey(ps, DeviceStateKey(o)) <==> o.deviceStateOnBoot && state != ""
  {
    if o.deviceStateOnBoot && state != "" then
      assert [Prop(DeviceStateKey(o), state)][0].key == DeviceStateKey(o);
      [Prop(DeviceStateKey(o), state)]
    else []
  }

  /** The pairs before the user's options, in the order they are pushed. */
  function Prefix(o: BootOptions, state: string): seq<Prop>
  {
    [Prop(QemuFlag(o), "1")] + [Prop(HARDWARE_KEY, "ranchu")] + o.early + LogcatProps(o) + o.middle
    + VerifiedBootProps(o) + o.late + DeviceStateProps(o, state)
  }

  /** All pairs in the order they are pushed, before duplicates are removed; `state` is the device-state XML. */
  function Params(o: BootOptions, state: string): seq<Prop>
  {
    Prefix(o, state) + SplitAll(o.appended) + o.trailing
  }

  /** A later push of a key hides every earlier one. */
  lemma {:induction false} LastAppend(a: seq<Prop>, b: seq<Prop>, k: string)
    ensures Last(a + b, k) == if Last(b, k).Some? then Last(b, k) else Last(a, k)
    decreases |b|
  {
    if b == [] {
      assert a + b == a;
    } else {
      var front := b[..|b| - 1];
      assert (a + b)[..|a + b| - 1] == a + front;
      LastAppend(a, front, k);
    }
  }

  /**
   * The qemu flag is "1" and the hardware is "ranchu" unless a later push
   * overrides the key.
   */
  lemma FixedPairsKept(o: BootOptions, state: string)
    ensures var params := Params(o, state);
            |params| >= 2 && HasKey(params, QemuFlag(o)) && HasKey(params, HARDWARE_KEY)
            && (!HasKey(params[2..], QemuFlag(o)) ==> Last(params, QemuFlag(o)) == Some("1"))
            && (!HasKey(params[2..], HARDWARE_KEY) ==> Last(params, HARDWARE_KEY) == Some("ranchu"))
  {
    var params := Params(o, state);
    var fixed := [Prop(QemuFlag(o), "1"), Prop(HARDWARE_KEY, "ranchu")];
    assert params[..2] == fixed;
    assert params == fixed + params[2..];
    assert "androidboot.qemu"[12] != HARDWARE_KEY[12];
    assert "qemu"[0] != HARDWARE_KEY[0];
    LastFound(params[2..], QemuFlag(o));
    LastFound(params[2..], HARDWARE_KEY);
    LastAppend(fixed, params[2..], QemuFlag(o));
    LastAppend(fixed, params[2..], HARDWARE_KEY);
    assert fixed[..1] == [fixed[0]];
    assert params[0].key == QemuFlag(o) && params[1].key == HARDWARE_KEY;
  }

  /** A user-appended option wins over every earlier property with its key. */
  lemma AppendedOverrides(o: BootOptions, state: string, k: string)
    requires HasKey(SplitAll(o.appended), k) && !HasKey(o.trailing, k)
    ensures Last(Params(o, state), k) == Last(SplitAll(o.appended), k)
  {
    var appended := SplitAll(o.appended);
    var before := Prefix(o, state);
    LastFound(appended, k);
    LastFound(o.trailing, k);
    LastAppend(before + appended, o.trailing, k);
    LastAppend(before, appended, k);
  }

  /** The logcat value handed to the guest never holds a space or a tab. */
  lemma LogcatHasNoBlank(o: BootOptions)
    ensures forall i :: 0 <= i < |LogcatValue(o.logcat)| ==> !Blank(LogcatValue(o.logcat)[i])
  {
    if o.logcat.Some? {
      CommasRule(o.logcat.value);
    }
  }

  /** Split each option at its first '=' (the verified-boot and the user-appended loops). */
  method SplitOptions(options: seq<string>) returns (ps: seq<Prop>)
    ensures ps == SplitAll(options)
  {
    ps := [];
    for n := 0 to |options|
      invariant ps == SplitAll(options[..n])
    {
      assert options[..n + 1][..n] == options[..n];
      ps := ps + [SplitOption(options[n])];
    }
    assert options[..|options|] == options;
  }

  /** The logcat property: the option with blanks turned into commas, or "*:V". */
  method LogcatParams(o: BootOptions) returns (ps: seq<Prop>)
    ensures ps == LogcatProps(o)
  {
    ps := [];
    if o.androidbootProps || o.androidbootProps2 {
      if o.logcat.Some? {
        var param := ReplaceBlanks(o.logcat.value);
        ps := [Prop(LOGCAT_KEY, param)];
      } else {
        ps := [Prop(LOGCAT_KEY, "*:V")];
      }
    }
  }

  /** The device-state property, when enabled and the configuration is not empty. */
  method DeviceStateParams(o: BootOptions, h: Host, f: Foldable) returns (ps: seq<Prop>)
    ensures ps == DeviceStateProps(o, DeviceState(h, f))
  {
    ps := [];
    if o.deviceStateOnBoot {
      var deviceState := DeviceStateString(h, f);
      if deviceState != "" {
        ps := [Prop(DeviceStateKey(o), deviceState)];
      }
    }
  }

  /**
   * getUserspaceBootProperties: push the pairs in source order, then keep the
   * last value of every key and list the keys in ascending order.
   */
  method GetUserspaceBootProperties(o: BootOptions, h: Host, f: Foldable) returns (props: seq<Prop>)
    ensures StrictlySorted(props)
    ensures forall i :: 0 <= i < |props| ==> Last(Params(o, DeviceState(h, f)), props[i].key) == Some(props[i].value)
    ensures forall k :: HasKey(Params(o, DeviceState(h, f)), k) ==> HasKey(props, k)
  {
    var qemuFlag := if o.androidbootProps2 then "androidboot.qemu" else "qemu";
    var params := [Prop(qemuFlag, "1")];
    params := params + [Prop(HARDWARE_KEY, "ranchu")];
    params := params + o.early;
    var logcat := LogcatParams(o);
    params := params + logcat;
    params := params + o.middle;
    var verified := [];
    if o.verifiedBoot.Some? {
      verified := SplitOptions(o.verifiedBoot.value);
    }
    params := params + verified;
    params := params + o.late;
    var deviceState := DeviceStateParams(o, h, f);
    params := params + deviceState;
    var appended := SplitOptions(o.appended);
    params := params + appended;
    params := params + o.trailing;
    props := Dedup(params);
  }
}
