/** Storage keys (db/db.go) and the memory store (db/mem/mem.go). */
module Storage {
  import opened Common

  type Prefix = bv8

  const DATATYPE_UNKNOWN: Prefix := 0
  const DATATYPE_STATICLOAD: Prefix := 8
  const DATATYPE_USERDATA: Prefix := 32

  /** BIN, MENU, TEMPLATE and STATICLOAD. */
  const SAFE_LOCK: Prefix := 15

  const DOT: byte := 46
  const UNDERSCORE: byte := 95

  /** The types MENU, TEMPLATE and STATICLOAD can be translated. */
  predicate Translatable(p: Prefix) {
    p & 14 != 0
  }

  /** Whether keys of the type carry the session. */
  predicate Sessioned(p: Prefix) {
    p > DATATYPE_STATICLOAD || p == DATATYPE_UNKNOWN
  }

  // ----- keys -----

  function ToDbKey(p: Prefix, b: Bytes, lang: Option<Bytes>): (r: Bytes)
    ensures r != [] && r[0] == p as int
  {
    var b' := if lang.Some? && lang.value != [] && Translatable(p) then b + ([UNDERSCORE] + lang.value) else b;
    [p as int] + b'
  }

  /** A translatable key loses what looks like a language suffix. */
  function FromDbKey(k: Bytes): Option<Bytes> {
    if |k| < 2 then None
    else
      var b := k[1..];
      if Translatable(k[0] as bv8) && HasSuffix(b) then Some(b[..|b| - 4]) else Some(b)
  }

  predicate HasSuffix(b: Bytes) {
    |b| > 6 && b[|b| - 4] == UNDERSCORE
  }

  function SessionPrefix(session: Bytes): Bytes {
    if session == [] then [] else session + [DOT]
  }

  function ToSessionKey(p: Prefix, sid: Bytes, key: Bytes): Bytes {
    if Sessioned(p) then sid + key else key
  }

  function FromSessionKey(sid: Bytes, key: Bytes): Option<Bytes> {
    if sid == [] then Some(key) else if sid <= key then Some(key[|sid|..]) else None
  }

  /** The default key and the translated one. */
  datatype LookupKey = LookupKey(def: Bytes, translation: Option<Bytes>)

  /** The context of a store: what the base object keeps besides the connection. */
  datatype Context = Context(pfx: Prefix, sid: Bytes, lock: Prefix, lang: Option<Bytes>, seal: bool, known: bool)

  const NEW_CONTEXT := Context(DATATYPE_UNKNOWN, [], SAFE_LOCK, None, false, true)

  /** `ctxLang` is the language of the call, used when the store has none. None: the prefix is not set. */
  function KeyOf(c: Context, key: Bytes, ctxLang: Option<Bytes>): Option<LookupKey> {
    if c.known && c.pfx == DATATYPE_UNKNOWN then None
    else
      var b := ToSessionKey(c.pfx, c.sid, key);
      var ln := if c.lang.Some? then c.lang else ctxLang;
      Some(LookupKey(ToDbKey(c.pfx, b, None),
                     if Translatable(c.pfx) && ln.Some? then Some(ToDbKey(c.pfx, b, ln)) else None))
  }

  function DecodedKey(c: Context, k: Bytes): Option<Bytes> {
    var b := FromDbKey(k);
    if b.None? then None else FromSessionKey(c.sid, b.value)
  }

  function Locked(c: Context, p: Prefix, on: bool): (r: Context)
    ensures c.seal ==> r == c
  {
    if c.seal then c
    else if p == DATATYPE_UNKNOWN then c.(lock := SetBits(c.lock, SAFE_LOCK), seal := true)
    else if on then c.(lock := SetBits(c.lock, p))
    else c.(lock := ClearBits(c.lock, p))
  }

  function SetBits(lock: Prefix, bits: Prefix): Prefix {
    lock | bits
  }

  function ClearBits(lock: Prefix, bits: Prefix): Prefix {
    lock & !bits
  }

  predicate CanPut(c: Context) {
    c.pfx & c.lock == 0
  }

  /**
   Decoding the default key gives back the key exactly when the stored key is not empty, a translatable
   key does not end in what looks like a language, and a key without session is read without a session.
   */
  lemma DecodeKeyIff(c: Context, key: Bytes)
    requires c.pfx != DATATYPE_UNKNOWN
    ensures var b := ToSessionKey(c.pfx, c.sid, key);
      DecodedKey(c, KeyOf(c, key, None).value.def) == Some(key) <==>
      b != [] && !(Translatable(c.pfx) && HasSuffix(b)) && (Sessioned(c.pfx) || c.sid == [])
  {
    var b := ToSessionKey(c.pfx, c.sid, key);
    var k := ToDbKey(c.pfx, b, None);
    assert k[0] as bv8 == c.pfx;
    assert k[1..] == b;
    hide Translatable, Sessioned, HasSuffix;
    DecodeBytesIff(c.sid, key, b, Translatable(c.pfx) && HasSuffix(b), Sessioned(c.pfx));
  }

  lemma DecodeBytesIff(sid: Bytes, key: Bytes, b: Bytes, cut: bool, sessioned: bool)
    requires b == if sessioned then sid + key else key
    requires cut ==> |b| > 6
    ensures b != [] ==>
      (FromSessionKey(sid, if cut then b[..|b| - 4] else b) == Some(key) <==> !cut && (sessioned || sid == []))
  {
    if sessioned {
      assert b[|sid|..] == key;
      assert sid <= b;
    }
  }

  /** Translated keys decode when the code has three letters and the key more than two bytes. */
  lemma TranslationDecodes(c: Context, key: Bytes, code: Bytes)
    requires Translatable(c.pfx) && !Sessioned(c.pfx) && c.sid == [] && |code| == 3
    ensures DecodedKey(c, ToDbKey(c.pfx, key, Some(code))) == Some(key) <==> |key| > 2
  {
    var k := ToDbKey(c.pfx, key, Some(code));
    var b := key + ([UNDERSCORE] + code);
    assert k[0] as bv8 == c.pfx;
    assert k[1..] == b && b[..|b| - 4] == key && b[|b| - 4] == UNDERSCORE;
  }

  // ----- sessions -----

  /** An identifier that cannot be confused with another one and the start of a key. */
  predicate GoodSession(s: Bytes) {
    s != [] && DOT !in s
  }

  /** A key in a session. */
  function SessionKey(s: Bytes, key: Bytes): Bytes {
    SessionPrefix(s) + key
  }

  /**
   Two keys in sessions collide exactly when one session, with its dot, and part of a key make up the other
   session, or when a key without session spells out the session and the key of the other.
   */
  lemma CollisionIff(s1: Bytes, k1: Bytes, s2: Bytes, k2: Bytes)
    requires |s1| <= |s2|
    ensures SessionKey(s1, k1) == SessionKey(s2, k2) <==>
      || (s1 == s2 && k1 == k2)
      || (s1 == [] && s2 != [] && k1 == s2 + [DOT] + k2)
      || (s1 != [] && s1 + [DOT] <= s2 && k1 == s2[|s1| + 1..] + [DOT] + k2)
  {
    var a, b := SessionPrefix(s1), SessionPrefix(s2);
    PrefixedIff(a, k1, b, k2);
    if s1 != [] && |s1| < |s2| {
      assert b[|a|..] == s2[|s1| + 1..] + [DOT];
      assert b[..|a|] == s2[..|a|];
    } else if s1 != [] {
      assert a[..|s1|] == s1 && b[..|s1|] == s2;
    }
  }

  lemma PrefixedIff(a: Bytes, k1: Bytes, b: Bytes, k2: Bytes)
    requires |a| <= |b|
    ensures a + k1 == b + k2 <==> a <= b && k1 == b[|a|..] + k2
  {
    assert (a + k1)[..|a|] == a && (a + k1)[|a|..] == k1;
    assert (b + k2)[..|a|] == b[..|a|] && (b + k2)[|a|..] == b[|a|..] + k2;
    if a <= b {
      assert b == a + b[|a|..];
    }
  }

  /** Good sessions keep keys apart. */
  lemma SessionsIsolate(s1: Bytes, k1: Bytes, s2: Bytes, k2: Bytes)
    requires GoodSession(s1) && GoodSession(s2)
    ensures SessionKey(s1, k1) == SessionKey(s2, k2) ==> s1 == s2 && k1 == k2
  {
    NotInside(s1, s2);
    NotInside(s2, s1);
    if |s1| <= |s2| {
      CollisionIff(s1, k1, s2, k2);
    } else {
      CollisionIff(s2, k2, s1, k1);
    }
  }

  lemma NotInside(s: Bytes, t: Bytes)
    requires DOT !in t
    ensures !(s + [DOT] <= t)
  {
    if |s| < |t| {
      assert t[|s|] != DOT && (s + [DOT])[|s|] == DOT;
    }
  }

  // ----- translations -----

  /** The code in a translated key. */
  function Suffix(code: Bytes): Bytes {
    [UNDERSCORE] + code
  }

  /** A translation and a default key share a slot exactly when the default key ends in the code. */
  lemma TranslationCollisionIff(p: Prefix, a: Bytes, code: Bytes, b: Bytes)
    requires Translatable(p) && code != []
    ensures ToDbKey(p, a, Some(code)) == ToDbKey(p, b, None) <==> b == a + Suffix(code)
  {
    assert ToDbKey(p, a, Some(code))[1..] == a + Suffix(code) && ToDbKey(p, b, None)[1..] == b;
  }

  /** Two translations share a slot exactly when they are the same, or the longer code contains the shorter one's suffix. */
  lemma TranslationsCollideIff(p: Prefix, a: Bytes, code: Bytes, b: Bytes, other: Bytes)
    requires Translatable(p) && 0 < |code| <= |other|
    ensures ToDbKey(p, a, Some(code)) == ToDbKey(p, b, Some(other)) <==>
      || (a == b && code == other)
      || (|code| < |other| && other[|other| - |code| - 1..] == Suffix(code)
          && a == b + Suffix(other[..|other| - |code| - 1]))
  {
    assert ToDbKey(p, a, Some(code))[1..] == a + Suffix(code) && ToDbKey(p, b, Some(other))[1..] == b + Suffix(other);
    hide ToDbKey, Suffix;
    SuffixIs(code);
    SuffixIs(other);
    SuffixedIff(a, Suffix(code), b, Suffix(other));
    if |code| < |other| {
      SuffixTail(code, other);
    } else {
      assert Suffix(other)[0..] == Suffix(other) && b + Suffix(other)[..0] == b;
    }
  }

  lemma SuffixIs(code: Bytes)
    ensures |Suffix(code)| == |code| + 1 && Suffix(code)[1..] == code
  {
  }

  lemma SuffixTail(code: Bytes, other: Bytes)
    requires |code| < |other|
    ensures var n := |other| - |code|;
      Suffix(other)[..n] == Suffix(other[..n - 1]) && Suffix(other)[n..] == other[n - 1..]
  {
  }

  lemma SuffixedIff(a: Bytes, x: Bytes, b: Bytes, y: Bytes)
    requires |x| <= |y|
    ensures a + x == b + y <==> x == y[|y| - |x|..] && a == b + y[..|y| - |x|]
  {
    var n := |y| - |x|;
    assert b + y == (b + y[..n]) + y[n..];
    SameLengthSplit(a, x, b + y[..n], y[n..]);
  }

  lemma SameLengthSplit(a: Bytes, x: Bytes, b: Bytes, y: Bytes)
    requires |x| == |y|
    ensures a + x == b + y <==> a == b && x == y
  {
    if a + x == b + y {
      assert (a + x)[..|a|] == a && (b + y)[..|b|] == b;
      assert (a + x)[|a|..] == x && (b + y)[|b|..] == y;
    }
  }

  // ----- hexadecimal keys -----

  function HexDigit(d: nat): byte
    requires d < 16
  {
    if d < 10 then 48 + d else 87 + d
  }

  /** `hex.EncodeToString` */
  function Hex(b: Bytes): (r: Bytes)
    ensures |r| == 2 * |b|
  {
    if b == [] then [] else [HexDigit(b[0] / 16), HexDigit(b[0] % 16)] + Hex(b[1..])
  }

  /** Two digits a byte, the high one first: `00`, `0a`, `9f`, `ff`. */
  lemma {:induction false} HexDigits()
    ensures Hex([0x00, 0x0A, 0x9F, 0xFF]) == [48, 48, 48, 97, 57, 102, 102, 102]
  {
    var nothing: Bytes := [];
    var d, c, b, a: Bytes := [0xFF], [0x9F, 0xFF], [0x0A, 0x9F, 0xFF], [0x00, 0x0A, 0x9F, 0xFF];
    assert d[1..] == nothing && c[1..] == d && b[1..] == c && a[1..] == b;
    assert Hex(nothing) == [] && Hex(d) == [102, 102] + Hex(nothing) && Hex(c) == [57, 102] + Hex(d);
    assert Hex(b) == [48, 97] + Hex(c) && Hex(a) == [48, 48] + Hex(b);
  }

  lemma {:induction false} HexInjective(a: Bytes, b: Bytes)
    requires Hex(a) == Hex(b)
    ensures a == b
    decreases |a|
  {
    if a != [] {
      assert Hex(a)[0] == HexDigit(a[0] / 16) && Hex(a)[1] == HexDigit(a[0] % 16);
      assert Hex(b)[0] == HexDigit(b[0] / 16) && Hex(b)[1] == HexDigit(b[0] % 16);
      assert Hex(a)[2..] == Hex(a[1..]) && Hex(b)[2..] == Hex(b[1..]);
      HexInjective(a[1..], b[1..]);
      assert a[0] == b[0];
      assert a == [a[0]] + a[1..] && b == [b[0]] + b[1..];
    }
  }

  // ----- the memory store, on values -----

  /** The store is None before Connect. */
  datatype MemV = MemV(context: Context, store: Option<map<Bytes, Bytes>>)

  datatype GetResult = Found(value: Bytes) | NotFound | NoPrefix

  /** A locked put is refused; a put before Connect panics. */
  datatype PutResult = Stored | Unsafe | PutNoPrefix | PutPanic

  function GetOut(m: MemV, key: Bytes, ctxLang: Option<Bytes>): GetResult {
    var lk := KeyOf(m.context, key, ctxLang);
    var store := if m.store.Some? then m.store.value else map[];
    if lk.None? then NoPrefix
    else if lk.value.translation.Some? && Hex(lk.value.translation.value) in store then
      Found(store[Hex(lk.value.translation.value)])
    else if Hex(lk.value.def) in store then Found(store[Hex(lk.value.def)])
    else NotFound
  }

  /** The key a put writes: the translation when there is one. */
  function PutKey(lk: LookupKey): Bytes {
    if lk.translation.Some? then Hex(lk.translation.value) else Hex(lk.def)
  }

  function PutOut(m: MemV, key: Bytes, ctxLang: Option<Bytes>): PutResult {
    if !CanPut(m.context) then Unsafe
    else if KeyOf(m.context, key, ctxLang).None? then PutNoPrefix
    else if m.store.None? then PutPanic
    else Stored
  }

  function PutState(m: MemV, key: Bytes, val: Bytes, ctxLang: Option<Bytes>): MemV {
    if PutOut(m, key, ctxLang) != Stored then m
    else m.(store := Some(m.store.value[PutKey(KeyOf(m.context, key, ctxLang).value) := val]))
  }

  // ----- the objects -----

  class DbBase {
    var pfx: Prefix
    var sid: Bytes
    var lock: Prefix
    var lang: Option<Bytes>
    var seal: bool
    var known: bool

    function View(): Context
      reads this
    {
      Context(pfx, sid, lock, lang, seal, known)
    }

    constructor ()
      ensures View() == NEW_CONTEXT
    {
      pfx, sid, lock, lang, seal, known := 0, [], 0, None, false, true;
      new;
      lock := lock | SAFE_LOCK;
    }

    method AllowUnknownPrefix() returns (changed: bool)
      modifies this
      ensures changed == old(known) && View() == old(View()).(known := false)
    {
      var was := known;
      if !was {
        return false;
      }
      known := false;
      return true;
    }

    /** Safe means that none of the four data types of the machine can be written. */
    method Safe() returns (r: bool)
      ensures r <==> (!CanPut(View().(pfx := 1)) && !CanPut(View().(pfx := 2))
                   && !CanPut(View().(pfx := 4)) && !CanPut(View().(pfx := DATATYPE_STATICLOAD)))
    {
      r := lock & SAFE_LOCK == SAFE_LOCK;
      SafeMeans(lock);
    }

    method SetPrefix(p: Prefix)
      modifies this
      ensures View() == old(View()).(pfx := p)
    {
      pfx := p;
    }

    method SetLanguage(ln: Option<Bytes>)
      modifies this
      ensures View() == old(View()).(lang := ln)
    {
      lang := ln;
    }

    method SetSession(sessionId: Bytes)
      modifies this
      ensures View() == old(View()).(sid := SessionPrefix(sessionId))
    {
      if sessionId == [] {
        sid := [];
      } else {
        sid := sessionId + [DOT];
      }
    }

    method SetLock(p: Prefix, on: bool) returns (ok: bool)
      modifies this
      ensures ok == !old(seal) && View() == Locked(old(View()), p, on)
    {
      if seal {
        return false;
      }
      hide SetBits, ClearBits;
      if p == 0 {
        lock := SetBits(lock, SAFE_LOCK);
        seal := true;
        return true;
      }
      if on {
        lock := SetBits(lock, p);
      } else {
        lock := ClearBits(lock, p);
      }
      return true;
    }

    method CheckPut() returns (r: bool)
      ensures r <==> CanPut(View())
    {
      r := pfx & lock == 0;
    }

    method ToKey(key: Bytes, ctxLang: Option<Bytes>) returns (r: Option<LookupKey>)
      ensures r == KeyOf(View(), key, ctxLang)
    {
      if known && pfx == DATATYPE_UNKNOWN {
        return None;
      }
      var b := ToSessionKey(pfx, sid, key);
      var def := ToDbKey(pfx, b, None);
      var translation := None;
      if pfx & 14 > 0 {
        var ln := None;
        if lang.Some? {
          ln := lang;
        } else if ctxLang.Some? {
          ln := ctxLang;
        }
        if ln.Some? {
          translation := Some(ToDbKey(pfx, b, ln));
        }
      }
      return Some(LookupKey(def, translation));
    }

    method DecodeKey(k: Bytes) returns (r: Option<Bytes>)
      ensures r == DecodedKey(View(), k)
    {
      var b := FromDbKey(k);
      if b.None? {
        return None;
      }
      return FromSessionKey(sid, b.value);
    }
  }

  lemma SafeMeans(lock: Prefix)
    ensures lock & SAFE_LOCK == SAFE_LOCK <==> 1 & lock != 0 && 2 & lock != 0 && 4 & lock != 0 && 8 & lock != 0
  {
  }

  class MemDb {
    const base: DbBase
    var store: Option<map<Bytes, Bytes>>

    function View(): MemV
      reads this, base
    {
      MemV(base.View(), store)
    }

    constructor ()
      ensures fresh(base) && View() == MemV(NEW_CONTEXT, None)
    {
      base := new DbBase();
      store := None;
    }

    /** Connecting again changes nothing. */
    method Connect()
      modifies this
      ensures View() == if old(store).Some? then old(View()) else old(View()).(store := Some(map[]))
    {
      if store.Some? {
        return;
      }
      store := Some(map[]);
    }

    method Get(key: Bytes, ctxLang: Option<Bytes>) returns (r: GetResult)
      ensures r == GetOut(View(), key, ctxLang)
    {
      var lk := base.ToKey(key, ctxLang);
      if lk.None? {
        return NoPrefix;
      }
      var entries := if store.Some? then store.value else map[];
      if lk.value.translation.Some? {
        var k := Hex(lk.value.translation.value);
        if k in entries {
          return Found(entries[k]);
        }
      }
      var k := Hex(lk.value.def);
      if k !in entries {
        return NotFound;
      }
      return Found(entries[k]);
    }

    method Put(key: Bytes, val: Bytes, ctxLang: Option<Bytes>) returns (r: PutResult)
      modifies this
      ensures r == PutOut(old(View()), key, ctxLang) && View() == PutState(old(View()), key, val, ctxLang)
    {
      var safe := base.CheckPut();
      if !safe {
        return Unsafe;
      }
      var lk := base.ToKey(key, ctxLang);
      if lk.None? {
        return PutNoPrefix;
      }
      var k := if lk.value.translation.Some? then Hex(lk.value.translation.value) else Hex(lk.value.def);
      if store.None? {
        return PutPanic;
      }
      store := Some(store.value[k := val]);
      return Stored;
    }
  }

  // ----- any sequence of operations -----

  datatype StoreOp =
    | UsePrefix(p: Prefix)
    | UseSession(session: Bytes)
    | UseLanguage(lang: Option<Bytes>)
    | UseLock(p: Prefix, on: bool)
    | PutValue(key: Bytes, val: Bytes, ctxLang: Option<Bytes>)

  function ApplyOp(m: MemV, op: StoreOp): MemV {
    match op
    case UsePrefix(p) => m.(context := m.context.(pfx := p))
    case UseSession(s) => m.(context := m.context.(sid := SessionPrefix(s)))
    case UseLanguage(l) => m.(context := m.context.(lang := l))
    case UseLock(p, on) => m.(context := Locked(m.context, p, on))
    case PutValue(key, val, l) => PutState(m, key, val, l)
  }

  function ApplyOps(m: MemV, ops: seq<StoreOp>): MemV
    decreases |ops|
  {
    if ops == [] then m else ApplyOps(ApplyOp(m, ops[0]), ops[1..])
  }

  /** A value as its owner names it. */
  datatype Slot = Slot(pfx: Prefix, session: Bytes, key: Bytes, lang: Option<Bytes>)

  /** The session counts for types with sessions, a language with a code for types with translations. */
  function SlotOf(p: Prefix, session: Bytes, key: Bytes, lang: Option<Bytes>): Slot {
    Slot(p, if Sessioned(p) then session else [], key, if Translatable(p) && lang != Some([]) then lang else None)
  }

  /** What a store should be: one value for every slot. */
  datatype Ideal = Ideal(
    pfx: Prefix, session: Bytes, lock: Prefix, lang: Option<Bytes>, seal: bool, values: map<Slot, Bytes>)

  const NEW_IDEAL := Ideal(DATATYPE_UNKNOWN, [], SAFE_LOCK, None, false, map[])

  /** The language of the store, or else that of the call. */
  function LanguageOf(own: Option<Bytes>, ctxLang: Option<Bytes>): Option<Bytes> {
    if own.Some? then own else ctxLang
  }

  /** A put that is not locked replaces the value of its slot, and nothing else. */
  function IdealOp(i: Ideal, op: StoreOp): Ideal {
    match op
    case UsePrefix(p) => i.(pfx := p)
    case UseSession(s) => i.(session := s)
    case UseLanguage(l) => i.(lang := l)
    case UseLock(p, on) =>
      var c := Locked(Context(i.pfx, [], i.lock, None, i.seal, true), p, on);
      i.(lock := c.lock, seal := c.seal)
    case PutValue(key, val, l) =>
      if i.pfx == DATATYPE_UNKNOWN || i.pfx & i.lock != 0 then i
      else i.(values := i.values[SlotOf(i.pfx, i.session, key, LanguageOf(i.lang, l)) := val])
  }

  function IdealOps(i: Ideal, ops: seq<StoreOp>): Ideal
    decreases |ops|
  {
    if ops == [] then i else IdealOps(IdealOp(i, ops[0]), ops[1..])
  }

  /** The value in the language asked for, else the one without language. */
  function IdealGet(i: Ideal, key: Bytes, l: Option<Bytes>): GetResult {
    var translated := SlotOf(i.pfx, i.session, key, LanguageOf(i.lang, l));
    var default := translated.(lang := None);
    if translated in i.values then Found(i.values[translated])
    else if default in i.values then Found(i.values[default])
    else NotFound
  }

  /** Codes have three letters. An empty code means no language. */
  predicate GoodLanguage(l: Option<Bytes>) {
    l.Some? && l.value != [] ==> |l.value| == 3
  }

  /** A key that does not end in what would be a code. */
  predicate Plain(key: Bytes) {
    |key| >= 4 ==> key[|key| - 4] != UNDERSCORE
  }

  /** What a data type asks of the keys and languages it is used with: nothing unless it is translatable. */
  predicate AllowedKey(p: Prefix, key: Bytes, l: Option<Bytes>) {
    Translatable(p) ==> Plain(key) && GoodLanguage(l)
  }

  /** What type `p` asks of an operation. */
  predicate GoodOp(p: Prefix, i: Ideal, op: StoreOp) {
    match op
    case UseSession(s) => Sessioned(p) ==> GoodSession(s)
    case UseLanguage(l) => Translatable(p) ==> GoodLanguage(l)
    case PutValue(key, _, l) => i.pfx == p ==> AllowedKey(p, key, l)
    case _ => true
  }

  predicate GoodOps(p: Prefix, i: Ideal, ops: seq<StoreOp>)
    decreases |ops|
  {
    ops != [] ==> GoodOp(p, i, ops[0]) && GoodOps(p, IdealOp(i, ops[0]), ops[1..])
  }

  predicate GoodSlot(s: Slot) {
    && s.pfx != DATATYPE_UNKNOWN
    && (if Sessioned(s.pfx) then GoodSession(s.session) else s.session == [])
    && (if Translatable(s.pfx) then Plain(s.key) && GoodLanguage(s.lang) && s.lang != Some([]) else s.lang.None?)
  }

  /** The key of a slot with its language, before session and data type. */
  function KeyText(key: Bytes, lang: Option<Bytes>): Bytes {
    if lang.None? then key else key + Suffix(lang.value)
  }

  function SlotBody(s: Slot): Bytes {
    SessionKey(s.session, KeyText(s.key, s.lang))
  }

  function SlotKey(s: Slot): Bytes {
    Hex([s.pfx as int] + SlotBody(s))
  }

  /** The store holds exactly the values of type `p` of the ideal one, each under the key of its slot. */
  ghost predicate Holds(p: Prefix, store: map<Bytes, Bytes>, values: map<Slot, Bytes>) {
    forall s: Slot {:trigger SlotKey(s)} :: s.pfx == p && GoodSlot(s) ==>
      (SlotKey(s) in store <==> s in values) && (s in values ==> SlotKey(s) in store && store[SlotKey(s)] == values[s])
  }

  ghost predicate Refines(p: Prefix, m: MemV, i: Ideal) {
    && m.store.Some?
    && m.context == Context(i.pfx, SessionPrefix(i.session), i.lock, i.lang, i.seal, true)
    && (Sessioned(p) ==> GoodSession(i.session)) && (Translatable(p) ==> GoodLanguage(i.lang))
    && Holds(p, m.store.value, i.values)
  }

  lemma KeyTextInjective(a: Bytes, l: Option<Bytes>, b: Bytes, m: Option<Bytes>)
    requires Plain(a) && Plain(b) && GoodLanguage(l) && GoodLanguage(m) && l != Some([]) && m != Some([])
    ensures KeyText(a, l) == KeyText(b, m) ==> a == b && l == m
  {
    var x, y := KeyText(a, l), KeyText(b, m);
    if x == y {
      assert l.Some? ==> |x| == |a| + 4 && x[|x| - 4] == UNDERSCORE && x[..|x| - 4] == a && x[|x| - 3..] == l.value;
      assert m.Some? ==> |y| == |b| + 4 && y[|y| - 4] == UNDERSCORE && y[..|y| - 4] == b && y[|y| - 3..] == m.value;
    }
  }

  lemma SlotBodyInjective(s: Slot, t: Slot)
    requires s.pfx == t.pfx && GoodSlot(s) && GoodSlot(t)
    ensures SlotBody(s) == SlotBody(t) ==> s == t
  {
    if SlotBody(s) == SlotBody(t) {
      if Sessioned(s.pfx) {
        SessionsIsolate(s.session, KeyText(s.key, s.lang), t.session, KeyText(t.key, t.lang));
      }
      assert [] + KeyText(s.key, s.lang) == KeyText(s.key, s.lang) && [] + KeyText(t.key, t.lang) == KeyText(t.key, t.lang);
      if Translatable(s.pfx) {
        KeyTextInjective(s.key, s.lang, t.key, t.lang);
      }
    }
  }

  /** Storage keys are injective in data type, session, key and language. */
  lemma SlotKeyInjective(s: Slot, t: Slot)
    requires GoodSlot(s) && GoodSlot(t)
    ensures SlotKey(s) == SlotKey(t) ==> s == t
  {
    hide GoodSlot, SlotBody;
    if SlotKey(s) == SlotKey(t) {
      TypesApart(s.pfx, SlotBody(s), t.pfx, SlotBody(t));
      SlotBodyInjective(s, t);
    }
  }

  /** Keys of different data types differ. */
  lemma TypesApart(p: Prefix, a: Bytes, q: Prefix, b: Bytes)
    ensures Hex([p as int] + a) == Hex([q as int] + b) ==> p == q && a == b
  {
    FirstBytesApart(p as int, a, q as int, b);
    TypeByte(p, q, p as int, q as int);
  }

  lemma FirstBytesApart(x: byte, a: Bytes, y: byte, b: Bytes)
    ensures Hex([x] + a) == Hex([y] + b) ==> x == y && a == b
  {
    hide Hex;
    if Hex([x] + a) == Hex([y] + b) {
      HexInjective([x] + a, [y] + b);
      assert ([x] + a)[0] == x && ([y] + b)[0] == y;
      assert ([x] + a)[1..] == a && ([y] + b)[1..] == b;
    }
  }

  lemma TypeByte(p: Prefix, q: Prefix, x: byte, y: byte)
    requires x == p as int && y == q as int
    ensures x == y ==> p == q
  {
    assert (p as int) as bv8 == p && (q as int) as bv8 == q;
  }

  /** The keys the store uses are those of the slots. */
  lemma KeysOfSlots(i: Ideal, key: Bytes, l: Option<Bytes>)
    requires i.pfx != DATATYPE_UNKNOWN
    ensures var c := Context(i.pfx, SessionPrefix(i.session), i.lock, i.lang, i.seal, true);
      var lk := KeyOf(c, key, l).value;
      var slot := SlotOf(i.pfx, i.session, key, LanguageOf(i.lang, l));
      && Hex(lk.def) == SlotKey(slot.(lang := None))
      && (slot.lang.Some? ==> lk.translation.Some?)
      && (lk.translation.Some? ==> Hex(lk.translation.value) == SlotKey(slot))
  {
    hide Hex, Translatable;
    var sid := SessionPrefix(i.session);
    if Translatable(i.pfx) && LanguageOf(i.lang, l).Some? {
      var suffix := Suffix(LanguageOf(i.lang, l).value);
      assert (sid + key) + suffix == sid + (key + suffix);
      assert [] + (key + suffix) == key + suffix;
    }
    assert [] + key == key;
  }

  lemma PutKeyIs(i: Ideal, key: Bytes, l: Option<Bytes>)
    requires i.pfx != DATATYPE_UNKNOWN
    ensures var c := Context(i.pfx, SessionPrefix(i.session), i.lock, i.lang, i.seal, true);
      PutKey(KeyOf(c, key, l).value) == SlotKey(SlotOf(i.pfx, i.session, key, LanguageOf(i.lang, l)))
  {
    KeysOfSlots(i, key, l);
  }

  lemma PutSlot(p: Prefix, store: map<Bytes, Bytes>, values: map<Slot, Bytes>, t: Slot, val: Bytes)
    requires Holds(p, store, values) && (t.pfx == p ==> GoodSlot(t))
    ensures Holds(p, store[SlotKey(t) := val], values[t := val])
  {
    forall s: Slot | s.pfx == p && GoodSlot(s) && SlotKey(s) == SlotKey(t) ensures s == t {
      if t.pfx == p {
        SlotKeyInjective(s, t);
      } else {
        TypesApart(s.pfx, SlotBody(s), t.pfx, SlotBody(t));
      }
    }
    hide SlotKey, GoodSlot;
  }

  lemma PutRefines(p: Prefix, m: MemV, i: Ideal, key: Bytes, val: Bytes, l: Option<Bytes>)
    requires Refines(p, m, i) && GoodOp(p, i, PutValue(key, val, l))
    ensures Refines(p, PutState(m, key, val, l), IdealOp(i, PutValue(key, val, l)))
  {
    hide Holds, SlotKey, Hex, GoodSession, Plain, ToDbKey, ToSessionKey, SessionPrefix;
    if PutOut(m, key, l) == Stored {
      var t := SlotOf(i.pfx, i.session, key, LanguageOf(i.lang, l));
      PutKeyIs(i, key, l);
      PutSlot(p, m.store.value, i.values, t, val);
    }
  }

  lemma OpRefines(p: Prefix, m: MemV, i: Ideal, op: StoreOp)
    requires Refines(p, m, i) && GoodOp(p, i, op)
    ensures Refines(p, ApplyOp(m, op), IdealOp(i, op))
  {
    hide Holds, PutState, SetBits, ClearBits, GoodSession, GoodLanguage;
    if op.PutValue? {
      PutRefines(p, m, i, op.key, op.val, op.ctxLang);
    }
  }

  lemma {:induction false} StoreRefines(p: Prefix, m: MemV, i: Ideal, ops: seq<StoreOp>)
    requires Refines(p, m, i) && GoodOps(p, i, ops)
    ensures Refines(p, ApplyOps(m, ops), IdealOps(i, ops))
    decreases |ops|
  {
    hide Refines, ApplyOp, IdealOp, GoodOp;
    if ops != [] {
      OpRefines(p, m, i, ops[0]);
      StoreRefines(p, ApplyOp(m, ops[0]), IdealOp(i, ops[0]), ops[1..]);
    }
  }

  /**
   Data is isolated. After any sequence of operations on a new store, a Get returns the value last put
   under the same data type, session, key and language, else the one put without language, and no other.
   Types with sessions ask for good sessions, translatable types for codes of three letters and keys that
   do not end in what would be a code; what is put under other types does not matter.
   */
  lemma DataIsIsolated(p: Prefix, session: Bytes, ops: seq<StoreOp>, key: Bytes, l: Option<Bytes>)
    requires p != DATATYPE_UNKNOWN && (Sessioned(p) ==> GoodSession(session)) && AllowedKey(p, key, l)
    requires GoodOps(p, NEW_IDEAL.(session := session), ops)
    ensures
      var m := ApplyOps(MemV(NEW_CONTEXT.(sid := SessionPrefix(session)), Some(map[])), ops);
      var i := IdealOps(NEW_IDEAL.(session := session), ops);
      i.pfx == p ==> GetOut(m, key, l) == IdealGet(i, key, l)
  {
    hide ApplyOps, IdealOps, GoodOps, Sessioned, Translatable, GetOut, IdealGet, Holds, SessionPrefix, GoodSession, AllowedKey;
    NothingHeld(p);
    var m0 := MemV(NEW_CONTEXT.(sid := SessionPrefix(session)), Some(map[]));
    var i0 := NEW_IDEAL.(session := session);
    StoreRefines(p, m0, i0, ops);
    if IdealOps(i0, ops).pfx == p {
      GetRefines(ApplyOps(m0, ops), IdealOps(i0, ops), key, l);
    }
  }

  lemma NothingHeld(p: Prefix)
    ensures Holds(p, map[], map[])
  {
  }

  lemma GetRefines(m: MemV, i: Ideal, key: Bytes, l: Option<Bytes>)
    requires i.pfx != DATATYPE_UNKNOWN && Refines(i.pfx, m, i) && AllowedKey(i.pfx, key, l)
    ensures GetOut(m, key, l) == IdealGet(i, key, l)
  {
    hide SlotKey, Hex, GoodSession, Plain, ToDbKey, ToSessionKey, SessionPrefix;
    KeysOfSlots(i, key, l);
  }

  // ----- the data types by name -----

  /** The store as it is used by a session for a data type. */
  function UsedBy(m: MemV, p: Prefix, session: Bytes): MemV {
    m.(context := m.context.(pfx := p, sid := SessionPrefix(session)))
  }

  /** State and user data, and all types above 8, have the session and a dot in front of their keys, in every language. */
  lemma {:induction false} SessionInFront(c: Context, p: Prefix, session: Bytes, key: Bytes, l: Option<Bytes>)
    requires p > 8 && session != []
    ensures var lk := KeyOf(c.(pfx := p, sid := SessionPrefix(session)), key, l);
      && lk.Some?
      && lk.value.def == [p as int] + session + [46] + key
      && (lk.value.translation.Some? ==> [p as int] + session + [46] <= lk.value.translation.value)
  {
    var head := [p as int] + session + [46];
    assert [p as int] + (session + [46] + key) == head + key;
    var ln := if c.lang.Some? then c.lang else l;
    if ln.Some? {
      var suffix := [UNDERSCORE] + ln.value;
      assert [p as int] + (session + [46] + key + suffix) == head + (key + suffix);
    }
    hide Translatable;
  }

  /** The keys of bytecode, menus, templates and static loads are the same in every session, and have none. */
  lemma SessionPlaysNoPart(c: Context, p: Prefix, session: Bytes, key: Bytes, l: Option<Bytes>)
    requires p in {1, 2, 4, 8}
    ensures KeyOf(c.(pfx := p, sid := SessionPrefix(session)), key, l) == KeyOf(c.(pfx := p, sid := []), key, l)
    ensures KeyOf(c.(pfx := p), key, l).Some? && KeyOf(c.(pfx := p), key, l).value.def == [p as int] + key
  {
  }

  /** A language counts for menus, templates and static loads; not for bytecode, state and user data. */
  lemma LanguagePlaysPart(c: Context, p: Prefix, key: Bytes, code: Bytes)
    requires c.lang == Some(code) && code != [] && p in {1, 2, 4, 8, 16, 32}
    ensures var lk := KeyOf(c.(pfx := p, sid := []), key, None);
      && lk.Some?
      && lk.value.translation == if p in {2, 4, 8} then Some([p as int] + key + [95] + code) else None
  {
    assert [] + key == key;
    assert [p as int] + (key + ([UNDERSCORE] + code)) == [p as int] + key + [95] + code;
  }

  /** Keys of different sessions differ, whatever the keys and languages. */
  lemma {:induction false} SessionsApart(
      c: Context, d: Context, p: Prefix, s: Bytes, t: Bytes, a: Bytes, b: Bytes, l: Option<Bytes>, m: Option<Bytes>)
    requires p > 8 && GoodSession(s) && GoodSession(t) && s != t
    ensures
      var x, y := KeyOf(c.(pfx := p, sid := SessionPrefix(s)), a, l).value, KeyOf(d.(pfx := p, sid := SessionPrefix(t)), b, m).value;
      && x.def != y.def
      && (x.translation.Some? ==> x.translation.value != y.def)
      && (y.translation.Some? ==> x.def != y.translation.value)
      && (x.translation.Some? && y.translation.Some? ==> x.translation.value != y.translation.value)
  {
    hide KeyOf, SessionPrefix;
    SessionInFront(c, p, s, a, l);
    SessionInFront(d, p, t, b, m);
    var x, y := KeyOf(c.(pfx := p, sid := SessionPrefix(s)), a, l).value, KeyOf(d.(pfx := p, sid := SessionPrefix(t)), b, m).value;
    assert [p as int] + s + [46] <= x.def && [p as int] + t + [46] <= y.def;
    HeadsApart(p as int, s, t, x.def, y.def);
    if x.translation.Some? {
      HeadsApart(p as int, s, t, x.translation.value, y.def);
    }
    if y.translation.Some? {
      HeadsApart(p as int, s, t, x.def, y.translation.value);
      if x.translation.Some? {
        HeadsApart(p as int, s, t, x.translation.value, y.translation.value);
      }
    }
  }

  lemma HeadsApart(p: byte, s: Bytes, t: Bytes, x: Bytes, y: Bytes)
    requires GoodSession(s) && GoodSession(t) && s != t && [p] + s + [46] <= x && [p] + t + [46] <= y
    ensures x != y
  {
    if x == y {
      var a, b := x[1..][|s| + 1..], x[1..][|t| + 1..];
      assert x[1..] == s + [46] + a && x[1..] == t + [46] + b;
      SessionsIsolate(s, a, t, b);
    }
  }

  /**
   What one session puts under such a type no other session sees: with any keys, values and languages, every Get of the other session
   answers as before.
   */
  lemma {:induction false} PutStaysInSession(
      m: MemV, p: Prefix, s: Bytes, t: Bytes, a: Bytes, val: Bytes, l: Option<Bytes>, b: Bytes, k: Option<Bytes>)
    requires p > 8 && GoodSession(s) && GoodSession(t) && s != t
    ensures GetOut(UsedBy(PutState(UsedBy(m, p, s), a, val, l), p, t), b, k) == GetOut(UsedBy(m, p, t), b, k)
  {
    hide KeyOf, SessionPrefix, Hex;
    var u := UsedBy(m, p, s);
    SessionsApart(m.context, m.context, p, s, t, a, b, l, k);
    if PutOut(u, a, l) == Stored {
      SessionInFront(m.context, p, t, b, k);
      var x, y := KeyOf(u.context, a, l).value, KeyOf(UsedBy(m, p, t).context, b, k).value;
      HexApart(PutBytes(x), y.def);
      if y.translation.Some? {
        HexApart(PutBytes(x), y.translation.value);
      }
    }
  }

  /** The bytes that a put writes under, before they are written in hexadecimal. */
  function PutBytes(lk: LookupKey): Bytes {
    if lk.translation.Some? then lk.translation.value else lk.def
  }

  lemma HexApart(a: Bytes, b: Bytes)
    ensures a != b ==> Hex(a) != Hex(b)
  {
    if Hex(a) == Hex(b) {
      HexInjective(a, b);
    }
  }

  /** `alice` puts user data, and `bob` finds none. */
  lemma {:induction false} BobFindsNothing(key: Bytes, val: Bytes)
    ensures
      var alice: Bytes, bob: Bytes := [97, 108, 105, 99, 101], [98, 111, 98];
      var m := PutState(UsedBy(MemV(NEW_CONTEXT, Some(map[])), DATATYPE_USERDATA, alice), key, val, None);
      && PutOut(UsedBy(MemV(NEW_CONTEXT, Some(map[])), DATATYPE_USERDATA, alice), key, None) == Stored
      && GetOut(UsedBy(m, DATATYPE_USERDATA, alice), key, None) == Found(val)
      && GetOut(UsedBy(m, DATATYPE_USERDATA, bob), key, None) == NotFound
  {
    var alice: Bytes, bob: Bytes := [97, 108, 105, 99, 101], [98, 111, 98];
    var empty := MemV(NEW_CONTEXT, Some(map[]));
    PutStaysInSession(empty, DATATYPE_USERDATA, alice, bob, key, val, None, key, None);
    hide Hex;
  }

  // ----- locks by name -----

  /**
   Locking and unlocking a data type decides that type and no other; type 0 locks the four types of the machine for good; a sealed
   store ignores both.
   */
  lemma LocksAre(c: Context, p: Prefix, on: bool, q: Prefix)
    requires p in {0, 1, 2, 4, 8, 16, 32} && q in {1, 2, 4, 8, 16, 32}
    ensures
      var r := Locked(c, p, on);
      && CanPut(r.(pfx := q)) ==
           (if c.seal then CanPut(c.(pfx := q))
            else if p == 0 then q in {16, 32} && CanPut(c.(pfx := q))
            else if p == q then !on else CanPut(c.(pfx := q)))
      && r.seal == (c.seal || p == 0)
  {
    hide *;
    LockedIs(c, p, on);
    CanPutIs(c, q);
    CanPutIs(Locked(c, p, on), q);
    SetOne(c.lock, p, q);
    ClearOne(c.lock, p, q);
    SetSafe(c.lock, q);
  }

  lemma LockedIs(c: Context, p: Prefix, on: bool)
    ensures var r := Locked(c, p, on);
      && r.seal == (c.seal || p == 0)
      && r.lock == if c.seal then c.lock else if p == 0 then SetBits(c.lock, SAFE_LOCK)
                   else if on then SetBits(c.lock, p) else ClearBits(c.lock, p)
  {
    hide SetBits, ClearBits;
  }

  predicate Free(q: Prefix, lock: Prefix) {
    q & lock == 0
  }

  lemma CanPutIs(c: Context, q: Prefix)
    ensures CanPut(c.(pfx := q)) == Free(q, c.lock)
  {
  }

  lemma SetOne(lock: Prefix, p: Prefix, q: Prefix)
    requires p in {0, 1, 2, 4, 8, 16, 32} && q in {1, 2, 4, 8, 16, 32}
    ensures Free(q, SetBits(lock, p)) <==> q != p && Free(q, lock)
  {
  }

  lemma ClearOne(lock: Prefix, p: Prefix, q: Prefix)
    requires p in {0, 1, 2, 4, 8, 16, 32} && q in {1, 2, 4, 8, 16, 32}
    ensures Free(q, ClearBits(lock, p)) <==> q == p || Free(q, lock)
  {
  }

  lemma SetSafe(lock: Prefix, q: Prefix)
    requires q in {1, 2, 4, 8, 16, 32}
    ensures Free(q, SetBits(lock, SAFE_LOCK)) <==> q in {16, 32} && Free(q, lock)
  {
  }
}
