/** Paired devices: saving them, loading them back, and the certificate chain that follows. */
module DeviceStore {
  import Bytes
  import opened Wrappers

  // PERM::_all: the five input, five operation and three action bits
  const PERM_ALL: bv32 := 0x071F_1F00
  // PERM::_default: view and list
  const PERM_DEFAULT: bv32 := 0x0300_0000

  datatype Command = Command(cmd: string, elevated: bool)

  datatype Device = Device(
    name: string,
    cert: string,
    uuid: string,
    displayMode: string,
    perm: bv32,
    enableLegacyOrdering: bool,
    allowClientCommands: bool,
    alwaysUseVirtualDisplay: bool,
    doCmds: seq<Command>,
    undoCmds: seq<Command>)

  // ----- Names -----

  /** std::string::find(" ("), or the length of s. */
  function FindParen(s: string): (i: nat)
    ensures i <= |s|
  {
    if |s| < 2 then |s| else if s[0] == ' ' && s[1] == '(' then 0 else 1 + FindParen(s[1..])
  }

  /** A name without its "(n)". */
  function BaseName(name: string): string {
    name[..FindParen(name)]
  }

  function Digit(n: nat): char
    requires n < 10
  {
    "0123456789"[n]
  }

  function Decimal(n: nat): (s: string)
    ensures s != []
  {
    if n < 10 then [Digit(n)] else Decimal(n / 10) + [Digit(n % 10)]
  }

  /** The name of the device that is number `count` of those with this base name. */
  function FinalName(base: string, count: nat): string {
    if count > 0 then base + " (" + Decimal(count + 1) + ")" else base
  }

  lemma {:induction false} DecimalInjective(a: nat, b: nat)
    requires Decimal(a) == Decimal(b)
    ensures a == b
  {
    var da, db := Decimal(a), Decimal(b);
    assert da[|da| - 1] == Digit(a % 10) && db[|db| - 1] == Digit(b % 10);
    assert a % 10 == b % 10;
    assert a >= 10 ==> da[..|da| - 1] == Decimal(a / 10) && |da| > 1;
    assert b >= 10 ==> db[..|db| - 1] == Decimal(b / 10) && |db| > 1;
    if a >= 10 && b >= 10 {
      DecimalInjective(a / 10, b / 10);
    }
  }

  lemma {:induction false} FindParenIn(base: string, rest: string)
    requires FindParen(base) == |base|
    ensures FindParen(base + " (" + rest) == |base|
  {
    if base == [] {
      assert [] + " (" + rest == " (" + rest;
    } else {
      FindParenIn(base[1..], rest);
      assert (base + " (" + rest)[1..] == base[1..] + " (" + rest;
      if |base| == 1 {
        assert (base + " (" + rest)[1] == ' ';
      } else {
        assert (base + " (" + rest)[..2] == base[..2];
      }
    }
  }

  lemma {:induction false} BaseHasNoParen(name: string)
    ensures FindParen(BaseName(name)) == |BaseName(name)|
  {
    if |name| >= 2 && !(name[0] == ' ' && name[1] == '(') {
      BaseHasNoParen(name[1..]);
      var b := BaseName(name);
      assert b[1..] == BaseName(name[1..]);
      if |b| >= 2 {
        assert b[..2] == name[..2];
      }
    }
  }

  /** The base name ends before the first " (" of the name, and is all of it if there is none. */
  lemma {:induction false} BaseNameExactly(name: string)
    ensures var b := BaseName(name);
      && b <= name && (b == name || " (" <= name[|b|..])
      && forall j :: 0 <= j < |b| && name[j] == ' ' ==> j + 1 == |name| || name[j + 1] != '('
  {
    if |name| >= 2 && !(name[0] == ' ' && name[1] == '(') {
      var t := name[1..];
      BaseNameExactly(t);
      var b := BaseName(name);
      assert b == [name[0]] + BaseName(t) && name[|b|..] == t[|b| - 1..];
      forall j | 0 <= j < |b| && name[j] == ' '
        ensures j + 1 == |name| || name[j + 1] != '('
      {
        if j > 0 {
          assert t[j - 1] == name[j] && (j < |t| ==> t[j] == name[j + 1]);
        }
      }
    } else {
      assert |name| >= 2 ==> " (" <= name[0..];
    }
  }

  /** The number a string of decimal digits stands for. */
  function ValueOf(digits: string): int {
    if digits == [] then 0 else 10 * ValueOf(digits[..|digits| - 1]) + (digits[|digits| - 1] as int - '0' as int)
  }

  /** Decimal writes digits without leading zeros, and they have the value written. */
  lemma {:induction false} DecimalHasValue(n: nat)
    ensures ValueOf(Decimal(n)) == n
    ensures forall j :: 0 <= j < |Decimal(n)| ==> '0' <= Decimal(n)[j] <= '9'
    ensures n > 0 ==> Decimal(n)[0] != '0'
  {
    var d := Decimal(n);
    if n >= 10 {
      DecimalHasValue(n / 10);
      assert d[..|d| - 1] == Decimal(n / 10);
    } else {
      assert d[..|d| - 1] == [];
    }
  }

  /** The base name is recovered exactly from a final name. */
  lemma BaseOfFinal(base: string, count: nat)
    requires FindParen(base) == |base|
    ensures BaseName(FinalName(base, count)) == base
  {
    hide Decimal, FindParen;
    if count > 0 {
      FindParenIn(base, Decimal(count + 1) + ")");
      assert base + " (" + Decimal(count + 1) + ")" == base + " (" + (Decimal(count + 1) + ")");
    }
  }

  lemma FinalNameInjective(base: string, count: nat, base': string, count': nat)
    requires FindParen(base) == |base| && FindParen(base') == |base'|
    requires FinalName(base, count) == FinalName(base', count')
    ensures base == base' && count == count'
  {
    BaseOfFinal(base, count);
    BaseOfFinal(base', count');
    hide FindParen, BaseName;
    NumberOfFinal(base, count);
    NumberOfFinal(base, count');
    if count > 0 && count' > 0 {
      DecimalInjective(count + 1, count' + 1);
    }
  }

  /** The number can be read off a final name too. */
  lemma NumberOfFinal(base: string, count: nat)
    ensures count == 0 <==> FinalName(base, count) == base
    ensures count > 0 ==> var f := FinalName(base, count);
                          |f| == |base| + 3 + |Decimal(count + 1)| && f[|base| + 2..|f| - 1] == Decimal(count + 1)
  {
    hide Decimal, FindParen;
    if count > 0 {
      var d := Decimal(count + 1);
      assert FinalName(base, count) == base + " (" + d + ")";
    }
  }

  // ----- Normalisation -----

  function Certs(ds: seq<Device>): set<string> {
    set d | d in ds :: d.cert
  }

  /** The first device of every certificate, in order. */
  function FirstPerCert(ds: seq<Device>): seq<Device> {
    if ds == [] then []
    else
      var kept, last := FirstPerCert(ds[..|ds| - 1]), ds[|ds| - 1];
      if last.cert in Certs(kept) then kept else kept + [last]
  }

  /** How many of these devices have this base name. */
  function CountBase(ds: seq<Device>, base: string): nat {
    if ds == [] then 0 else CountBase(ds[..|ds| - 1], base) + (if BaseName(ds[|ds| - 1].name) == base then 1 else 0)
  }

  /** Each device gets its base name, numbered from 2 on when devices before it share it, and no permission outside PERM_ALL. */
  function Renamed(ds: seq<Device>): (r: seq<Device>)
    ensures |r| == |ds|
  {
    if ds == [] then []
    else
      var init, last := ds[..|ds| - 1], ds[|ds| - 1];
      var base := BaseName(last.name);
      Renamed(init) + [last.(name := FinalName(base, CountBase(init, base)), perm := last.perm & PERM_ALL)]
  }

  /** What saving and loading makes of a device list. */
  function Normalized(ds: seq<Device>): seq<Device> {
    Renamed(FirstPerCert(ds))
  }

  lemma {:induction false} CertsAppend(p: seq<Device>, d: Device)
    ensures Certs(p + [d]) == Certs(p) + {d.cert}
  {
    assert d in p + [d];
    assert forall x :: x in p ==> x in p + [d];
  }

  lemma {:induction false} FirstPerCertKeepsCerts(ds: seq<Device>)
    ensures Certs(FirstPerCert(ds)) == Certs(ds)
  {
    if ds != [] {
      var init, last := ds[..|ds| - 1], ds[|ds| - 1];
      FirstPerCertKeepsCerts(init);
      assert ds == init + [last];
      CertsAppend(init, last);
      CertsAppend(FirstPerCert(init), last);
    }
  }

  lemma CertAt(ds: seq<Device>, c: string)
    ensures c in Certs(ds) <==> exists i :: 0 <= i < |ds| && ds[i].cert == c
  {
    if c in Certs(ds) {
      var d :| d in ds && d.cert == c;
      var i :| 0 <= i < |ds| && ds[i] == d;
    }
  }

  ghost predicate DistinctCerts(ds: seq<Device>) {
    forall i, j :: 0 <= i < j < |ds| ==> ds[i].cert != ds[j].cert
  }

  ghost predicate DistinctNames(ds: seq<Device>) {
    forall i, j :: 0 <= i < j < |ds| ==> ds[i].name != ds[j].name
  }

  lemma {:induction false} FirstPerCertDistinct(ds: seq<Device>)
    ensures DistinctCerts(FirstPerCert(ds))
  {
    if ds != [] {
      FirstPerCertDistinct(ds[..|ds| - 1]);
    }
  }

  lemma {:induction false} FirstPerCertIdentity(ds: seq<Device>)
    requires DistinctCerts(ds)
    ensures FirstPerCert(ds) == ds
  {
    if ds != [] {
      var init, last := ds[..|ds| - 1], ds[|ds| - 1];
      FirstPerCertIdentity(init);
      CertAt(init, last.cert);
    }
  }

  /** The kept device of a certificate is the first one in the list. */
  lemma {:induction false} FirstPerCertIsFirst(ds: seq<Device>, i: nat)
    requires i < |ds| && forall j :: 0 <= j < i ==> ds[j].cert != ds[i].cert
    ensures ds[i] in FirstPerCert(ds)
  {
    var n := |ds| - 1;
    if i < n {
      FirstPerCertIsFirst(ds[..n], i);
    } else {
      FirstPerCertKeepsCerts(ds[..n]);
      CertAt(ds[..n], ds[i].cert);
    }
  }

  lemma {:induction false} RenamedAt(ds: seq<Device>, i: nat)
    requires i < |ds|
    ensures var base := BaseName(ds[i].name);
            Renamed(ds)[i] == ds[i].(name := FinalName(base, CountBase(ds[..i], base)), perm := ds[i].perm & PERM_ALL)
  {
    hide BaseName, FinalName, CountBase;
    var n := |ds| - 1;
    if i < n {
      RenamedAt(ds[..n], i);
      assert ds[..n][..i] == ds[..i];
    }
  }

  lemma {:induction false} CountBaseMono(ds: seq<Device>, i: nat, j: nat, base: string)
    requires i <= j <= |ds|
    ensures CountBase(ds[..i], base) <= CountBase(ds[..j], base)
  {
    if i < j {
      CountBaseMono(ds, i, j - 1, base);
      assert ds[..j][..j - 1] == ds[..j - 1];
    }
  }

  /** After renaming all names differ. */
  lemma RenamedDistinct(ds: seq<Device>)
    ensures DistinctNames(Renamed(ds))
  {
    hide FinalName, BaseName, CountBase, Renamed;
    forall i, j | 0 <= i < j < |ds|
      ensures Renamed(ds)[i].name != Renamed(ds)[j].name
    {
      RenamedAt(ds, i);
      RenamedAt(ds, j);
      var bi, bj := BaseName(ds[i].name), BaseName(ds[j].name);
      BaseHasNoParen(ds[i].name);
      BaseHasNoParen(ds[j].name);
      if Renamed(ds)[i].name == Renamed(ds)[j].name {
        FinalNameInjective(bi, CountBase(ds[..i], bi), bj, CountBase(ds[..j], bj));
        CountGrows(ds, i, j, bi);
      }
    }
  }

  lemma CountGrows(ds: seq<Device>, i: nat, j: nat, base: string)
    requires i < j <= |ds| && BaseName(ds[i].name) == base
    ensures CountBase(ds[..i], base) < CountBase(ds[..j], base)
  {
    CountBaseMono(ds, i + 1, j, base);
    assert ds[..i + 1][..i] == ds[..i];
  }

  function SharingBase(ds: seq<Device>, base: string): set<nat> {
    set i: nat | i < |ds| && BaseName(ds[i].name) == base
  }

  lemma {:induction false} CountBaseCounts(ds: seq<Device>, base: string)
    ensures CountBase(ds, base) == |SharingBase(ds, base)|
  {
    hide BaseName;
    if ds != [] {
      var n := |ds| - 1;
      var init, before := ds[..n], SharingBase(ds[..n], base);
      CountBaseCounts(init, base);
      forall i: nat
        ensures i in SharingBase(ds, base) <==> i in before || (i == n && BaseName(ds[n].name) == base)
      {
        assert i < n ==> init[i] == ds[i];
      }
      assert SharingBase(ds, base) == before + (if BaseName(ds[n].name) == base then {n} else {});
    }
  }

  lemma {:induction false} RenamedKeepsBases(ds: seq<Device>, base: string)
    ensures CountBase(Renamed(ds), base) == CountBase(ds, base)
  {
    hide FinalName, BaseName;
    if ds != [] {
      var init, last := ds[..|ds| - 1], ds[|ds| - 1];
      RenamedKeepsBases(init, base);
      BaseHasNoParen(last.name);
      BaseOfFinal(BaseName(last.name), CountBase(init, BaseName(last.name)));
    }
  }

  lemma {:induction false} RenamedTwice(ds: seq<Device>)
    ensures Renamed(Renamed(ds)) == Renamed(ds)
  {
    hide FinalName, BaseName, CountBase;
    if ds != [] {
      var init, last := ds[..|ds| - 1], ds[|ds| - 1];
      var base := BaseName(last.name);
      RenamedTwice(init);
      RenamedKeepsBases(init, base);
      BaseHasNoParen(last.name);
      BaseOfFinal(base, CountBase(init, base));
    }
  }

  /** The name is the base, with " (k)" behind it for the k-th device of that base from the second on. */
  predicate Numbered(name: string, base: string, others: nat) {
    if others == 0 then name == base else name == base + " (" + Decimal(others + 1) + ")"
  }

  /** Normalisation keeps the first device of every certificate, in order and unchanged but for the permissions there are and the
      number behind the base name; all names differ, and doing it again changes nothing. */
  lemma NormalizedIsNormal(ds: seq<Device>)
    ensures DistinctCerts(Normalized(ds)) && DistinctNames(Normalized(ds)) && Certs(Normalized(ds)) == Certs(ds)
    ensures |Normalized(ds)| == |FirstPerCert(ds)|
    ensures forall i :: 0 <= i < |Normalized(ds)| ==>
      && Normalized(ds)[i].perm == FirstPerCert(ds)[i].perm & 0x071F_1F00
      && Normalized(ds)[i] == FirstPerCert(ds)[i].(name := Normalized(ds)[i].name, perm := Normalized(ds)[i].perm)
      && Numbered(Normalized(ds)[i].name, BaseName(FirstPerCert(ds)[i].name), |SharingBase(FirstPerCert(ds)[..i], BaseName(FirstPerCert(ds)[i].name))|)
    ensures Normalized(Normalized(ds)) == Normalized(ds)
  {
    hide FinalName, BaseName, CountBase, Renamed, FirstPerCert, Numbered, SharingBase;
    var kept := FirstPerCert(ds);
    FirstPerCertDistinct(ds);
    FirstPerCertKeepsCerts(ds);
    RenamedDistinct(kept);
    RenamedTwice(kept);
    forall i | 0 <= i < |kept|
      ensures Renamed(kept)[i].cert == kept[i].cert && Renamed(kept)[i].perm == kept[i].perm & 0x071F_1F00
      ensures Renamed(kept)[i] == kept[i].(name := Renamed(kept)[i].name, perm := Renamed(kept)[i].perm)
      ensures Numbered(Renamed(kept)[i].name, BaseName(kept[i].name), |SharingBase(kept[..i], BaseName(kept[i].name))|)
    {
      RenamedAt(kept, i);
      CountBaseCounts(kept[..i], BaseName(kept[i].name));
      FinalIsNumbered(BaseName(kept[i].name), CountBase(kept[..i], BaseName(kept[i].name)));
    }
    FirstPerCertIdentity(Renamed(kept));
    SameCerts(Renamed(kept), kept);
  }

  lemma FinalIsNumbered(base: string, count: nat)
    ensures Numbered(FinalName(base, count), base, count)
  {
  }

  /** A device with a new certificate comes last, and leaves the others as they would be without it. */
  lemma NormalizedAppend(ds: seq<Device>, d: Device)
    requires d.cert !in Certs(ds)
    ensures var base := BaseName(d.name); var n := |Normalized(ds)|;
      && |Normalized(ds + [d])| == n + 1 && Normalized(ds + [d])[..n] == Normalized(ds)
      && var last := Normalized(ds + [d])[n];
      && last == d.(name := last.name, perm := d.perm & PERM_ALL)
      && Numbered(last.name, base, |SharingBase(Normalized(ds), base)|)
  {
    hide FinalName, BaseName, CountBase, Numbered, SharingBase, Renamed, Certs;
    var kept, base := FirstPerCert(ds), BaseName(d.name);
    FirstPerCertAppend(ds, d);
    RenamedAppend(kept, d);
    FinalIsNumbered(base, CountBase(kept, base));
    RenamedKeepsBases(kept, base);
    CountBaseCounts(Renamed(kept), base);
  }

  lemma FirstPerCertAppend(ds: seq<Device>, d: Device)
    requires d.cert !in Certs(ds)
    ensures FirstPerCert(ds + [d]) == FirstPerCert(ds) + [d]
  {
    FirstPerCertKeepsCerts(ds);
    assert (ds + [d])[..|ds|] == ds;
  }

  lemma SameCerts(p: seq<Device>, q: seq<Device>)
    requires |p| == |q| && forall i :: 0 <= i < |p| ==> p[i].cert == q[i].cert
    ensures Certs(p) == Certs(q)
  {
    forall c
      ensures c in Certs(p) <==> c in Certs(q)
    {
      if c in Certs(p) {
        var i :| 0 <= i < |p| && p[i].cert == c;
        assert q[i] in q;
      }
      if c in Certs(q) {
        var i :| 0 <= i < |q| && q[i].cert == c;
        assert p[i] in p;
      }
    }
  }

  // ----- The state file -----

  /** One entry of "named_devices"; None where the key is absent. */
  datatype Node = Node(
    name: Option<string>,
    cert: Option<string>,
    uuid: Option<string>,
    displayMode: Option<string>,
    perm: Option<bv32>,
    enableLegacyOrdering: Option<bool>,
    allowClientCommands: Option<bool>,
    alwaysUseVirtualDisplay: Option<bool>,
    doCmds: Option<seq<Command>>,
    undoCmds: Option<seq<Command>>)

  datatype StateFile =
    | Missing
    | Unreadable
    | Foreign // readable, without "root.uniqueid"
    | Document(oldCerts: seq<string>, devices: seq<Node>) // the certificates of the old "devices" format, and "named_devices"

  /** How writing the state file ends. */
  datatype Write =
    | Written
    | NotOpened // nothing happens, silently
    | Emptied // opened and truncated, but the text could not be made

  function Or<T>(o: Option<T>, default: T): T {
    match o
    case Some(v) => v
    case None => default
  }

  function CommandsNode(cmds: seq<Command>): Option<seq<Command>> {
    if cmds == [] then None else Some(cmds)
  }

  /** What is written for a device under its final name. */
  function ToNode(d: Device, name: string): Node {
    Node(Some(name), Some(d.cert), Some(d.uuid), Some(d.displayMode), Some(d.perm), Some(d.enableLegacyOrdering),
         Some(d.allowClientCommands), Some(d.alwaysUseVirtualDisplay), CommandsNode(d.doCmds), CommandsNode(d.undoCmds))
  }

  /** What is read from an entry. */
  function FromNode(n: Node): Device {
    Device(Or(n.name, ""), Or(n.cert, ""), Or(n.uuid, ""), Or(n.displayMode, ""), Or(n.perm, PERM_ALL) & PERM_ALL,
           Or(n.enableLegacyOrdering, true), Or(n.allowClientCommands, true), Or(n.alwaysUseVirtualDisplay, false),
           Or(n.doCmds, []), Or(n.undoCmds, []))
  }

  function LoadedFrom(ns: seq<Node>): seq<Device> {
    if ns == [] then [] else LoadedFrom(ns[..|ns| - 1]) + [FromNode(ns[|ns| - 1])]
  }

  /** A value read under a key: what stands there, or the default if the key is absent. */
  predicate Read<T(==)>(v: T, o: Option<T>, default: T) {
    o == Some(v) || (o.None? && v == default)
  }

  /** The device an entry gives: its own values, and what stands in for the keys it lacks. */
  ghost predicate ReadFrom(d: Device, n: Node) {
    && Read(d.name, n.name, "") && Read(d.cert, n.cert, "") && Read(d.uuid, n.uuid, "") && Read(d.displayMode, n.displayMode, "")
    && d.perm == (if n.perm.None? then 0x071F_1F00 else n.perm.value & 0x071F_1F00)
    && Read(d.enableLegacyOrdering, n.enableLegacyOrdering, true)
    && Read(d.allowClientCommands, n.allowClientCommands, true)
    && Read(d.alwaysUseVirtualDisplay, n.alwaysUseVirtualDisplay, false)
    && Read(d.doCmds, n.doCmds, []) && Read(d.undoCmds, n.undoCmds, [])
  }

  /** A certificate of the old format, as a device that may do everything. */
  ghost predicate Imported(d: Device, cert: string) {
    && d.cert == cert && d.perm == 0x071F_1F00 && d.name == "" && d.displayMode == "" && d.doCmds == [] && d.undoCmds == []
    && d.enableLegacyOrdering && d.allowClientCommands && !d.alwaysUseVirtualDisplay
  }

  lemma {:induction false} LoadedIsRead(ns: seq<Node>)
    ensures |LoadedFrom(ns)| == |ns| && forall i :: 0 <= i < |ns| ==> ReadFrom(LoadedFrom(ns)[i], ns[i])
  {
    hide FromNode, ReadFrom;
    if ns != [] {
      LoadedIsRead(ns[..|ns| - 1]);
      FromNodeReads(ns[|ns| - 1]);
    }
  }

  lemma FromNodeReads(n: Node)
    ensures ReadFrom(FromNode(n), n)
  {
    hide Or, Read;
    OrReads(n.name, "");
    OrReads(n.cert, "");
    OrReads(n.uuid, "");
    OrReads(n.displayMode, "");
    OrReads(n.enableLegacyOrdering, true);
    OrReads(n.allowClientCommands, true);
    OrReads(n.alwaysUseVirtualDisplay, false);
    OrReads(n.doCmds, []);
    OrReads(n.undoCmds, []);
    PermRead(n.perm);
  }

  lemma OrReads<T>(o: Option<T>, default: T)
    ensures Read(Or(o, default), o, default)
  {
  }

  lemma PermRead(perm: Option<bv32>)
    ensures Or(perm, PERM_ALL) & PERM_ALL == if perm.None? then 0x071F_1F00 else perm.value & 0x071F_1F00
  {
  }

  /** Devices that no longer include those with this uuid. */
  function Without(ds: seq<Device>, uuid: string): (r: seq<Device>)
    ensures forall d :: d in r <==> d in ds && d.uuid != uuid
  {
    if ds == [] then []
    else
      var init, last := ds[..|ds| - 1], ds[|ds| - 1];
      assert ds == init + [last];
      if last.uuid == uuid then Without(init, uuid) else Without(init, uuid) + [last]
  }

  /** Removing goes device by device: those that stay keep their order and their number. */
  lemma {:induction false} WithoutSplits(p: seq<Device>, q: seq<Device>, uuid: string)
    ensures Without(p + q, uuid) == Without(p, uuid) + Without(q, uuid)
    ensures |q| == 1 ==> Without(q, uuid) == if q[0].uuid == uuid then [] else q
  {
    hide Without;
    WithoutNone(uuid);
    if q == [] {
      assert p + q == p;
    } else {
      var n := |q| - 1;
      WithoutSplits(p, q[..n], uuid);
      WithoutStep(q, n, uuid);
      WithoutStep(p + q, |p| + n, uuid);
      JoinedParts(p, q, n);
      Bytes.Assoc(Without(p, uuid), Without(q[..n], uuid), [q[n]]);
    }
  }

  lemma JoinedParts(p: seq<Device>, q: seq<Device>, n: nat)
    requires n + 1 == |q|
    ensures (p + q)[..|p| + n] == p + q[..n] && (p + q)[|p| + n] == q[n] && (p + q)[..|p| + n + 1] == p + q
    ensures q[..n + 1] == q && (n == 0 ==> q[..n] == [] && q == [] + [q[0]])
  {
  }

  lemma WithoutStep(ds: seq<Device>, i: nat, uuid: string)
    requires i < |ds|
    ensures Without(ds[..i + 1], uuid) == if ds[i].uuid == uuid then Without(ds[..i], uuid) else Without(ds[..i], uuid) + [ds[i]]
  {
    assert ds[..i + 1][..i] == ds[..i];
  }

  lemma CountBaseAppend(ds: seq<Device>, d: Device, base: string)
    ensures CountBase(ds + [d], base) == CountBase(ds, base) + (if BaseName(d.name) == base then 1 else 0)
  {
    assert (ds + [d])[..|ds|] == ds;
  }

  lemma CountsAppend(ds: seq<Device>, d: Device)
    ensures forall base :: CountBase(ds + [d], base) == CountBase(ds, base) + (if BaseName(d.name) == base then 1 else 0)
  {
    hide CountBase, BaseName;
    forall base
      ensures CountBase(ds + [d], base) == CountBase(ds, base) + (if BaseName(d.name) == base then 1 else 0)
    {
      CountBaseAppend(ds, d, base);
    }
  }

  lemma RenamedAppend(ds: seq<Device>, d: Device)
    ensures var base := BaseName(d.name);
            Renamed(ds + [d]) == Renamed(ds) + [d.(name := FinalName(base, CountBase(ds, base)), perm := d.perm & PERM_ALL)]
  {
    assert (ds + [d])[..|ds|] == ds;
  }

  lemma FirstPerCertStep(ds: seq<Device>, i: nat)
    requires i < |ds|
    ensures var kept := FirstPerCert(ds[..i]);
            FirstPerCert(ds[..i + 1]) == if ds[i].cert in Certs(kept) then kept else kept + [ds[i]]
  {
    assert ds[..i + 1][..i] == ds[..i];
  }

  lemma LoadedAppend(ns: seq<Node>, n: Node)
    ensures LoadedFrom(ns + [n]) == LoadedFrom(ns) + [FromNode(n)]
  {
    assert (ns + [n])[..|ns|] == ns;
  }

  /** Devices of the old format have a certificate only; each gets a new uuid. */
  function OldDevices(certs: seq<string>, uuids: nat -> string): (r: seq<Device>)
    ensures |r| == |certs|
  {
    seq(|certs|, i requires 0 <= i < |certs| => Device("", certs[i], uuids(i), "", PERM_ALL, true, true, false, [], []))
  }

  /** What load_state makes of this file when the devices in memory are ds. */
  function LoadedInto(f: StateFile, uuids: nat -> string, ds: seq<Device>): seq<Device> {
    if f.Document? then OldDevices(f.oldCerts, uuids) + LoadedFrom(f.devices) else ds
  }

  lemma OldAreImported(certs: seq<string>, uuids: nat -> string)
    ensures forall i :: 0 <= i < |certs| ==> Imported(OldDevices(certs, uuids)[i], certs[i]) && OldDevices(certs, uuids)[i].uuid == uuids(i)
  {
  }

  lemma OldDevicesStep(certs: seq<string>, uuids: nat -> string, i: nat)
    requires i < |certs|
    ensures OldDevices(certs[..i + 1], uuids) == OldDevices(certs[..i], uuids) + [Device("", certs[i], uuids(i), "", PERM_ALL, true, true, false, [], [])]
  {
  }

  lemma LoadedStep(ds: seq<Device>, nodes: seq<Node>, i: nat)
    requires i < |nodes|
    ensures ds + LoadedFrom(nodes[..i]) + [FromNode(nodes[i])] == ds + LoadedFrom(nodes[..i + 1])
  {
    assert nodes[..i + 1][..i] == nodes[..i];
  }

  lemma NoneOld(uuids: nat -> string)
    ensures OldDevices([], uuids) == [] && forall ds: seq<Device> :: [] + ds == ds && ds + [] == ds
  {
  }

  lemma KeepStep(kept: seq<Device>, nodes: seq<Node>, d: Device)
    requires LoadedFrom(nodes) == Renamed(kept)
    ensures var base := BaseName(d.name);
            LoadedFrom(nodes + [ToNode(d, FinalName(base, CountBase(kept, base)))]) == Renamed(kept + [d])
  {
    hide BaseName, FinalName, CountBase, Renamed, LoadedFrom;
    LoadedAppend(nodes, ToNode(d, FinalName(BaseName(d.name), CountBase(kept, BaseName(d.name)))));
    RenamedAppend(kept, d);
  }

  /** The saving loop: loading what it makes gives the normalised list. */
  method NodesToSave(devices: seq<Device>) returns (nodes: seq<Node>)
    ensures LoadedFrom(nodes) == Normalized(devices)
    ensures |nodes| == |FirstPerCert(devices)| && forall n :: n in nodes ==> n.name.Some? && n.cert.Some?
  {
    hide FinalName, BaseName, CountBase, Renamed, FirstPerCert, LoadedFrom, Certs;
    nodes := [];
    var uniqueCerts: set<string> := {};
    var nameCounts: map<string, nat> := map[];
    ghost var kept: seq<Device> := [];
    EmptyLists();
    assert devices[..0] == [];
    for i := 0 to |devices|
      invariant kept == FirstPerCert(devices[..i]) && uniqueCerts == Certs(kept)
      invariant forall base :: CountBase(kept, base) == if base in nameCounts then nameCounts[base] else 0
      invariant |nodes| == |kept| && LoadedFrom(nodes) == Renamed(kept)
      invariant forall n :: n in nodes ==> n.name.Some? && n.cert.Some?
    {
      var d := devices[i];
      FirstPerCertStep(devices, i);
      if d.cert !in uniqueCerts {
        uniqueCerts := uniqueCerts + {d.cert};
        CertsAppend(kept, d);
        var base := d.name[..FindParen(d.name)];
        BaseIs(d.name);
        var count := if base in nameCounts then nameCounts[base] else 0;
        nameCounts := nameCounts[base := count + 1];
        KeepStep(kept, nodes, d);
        CountsAppend(kept, d);
        nodes := nodes + [ToNode(d, FinalName(base, count))];
        kept := kept + [d];
      }
    }
    assert devices[..|devices|] == devices;
  }

  /** The list once d has been added: saved and loaded back, unless state is not kept or the state file cannot be read. */
  function Added(ds: seq<Device>, d: Device, kept: bool): (r: seq<Device>)
    ensures Certs(r) == Certs(ds) + {d.cert}
  {
    NormalizedIsNormal(ds + [d]);
    CertsAppend(ds, d);
    if kept then Normalized(ds + [d]) else ds + [d]
  }

  /** The list once the devices with this uuid have been removed. */
  function Removed(ds: seq<Device>, uuid: string, kept: bool): (r: seq<Device>)
    ensures Certs(r) == (set d | d in ds && d.uuid != uuid :: d.cert) && Certs(r) <= Certs(ds)
    ensures forall d :: d in r ==> d.uuid != uuid
  {
    var others := Without(ds, uuid);
    NormalizedIsNormal(others);
    NormalizedKeeps(others);
    if kept then Normalized(others) else others
  }

  /** Every normalised device has the uuid of one there was. */
  lemma NormalizedKeeps(ds: seq<Device>)
    ensures forall d :: d in Normalized(ds) ==> exists o :: o in ds && o.uuid == d.uuid
  {
    hide Normalized, Numbered, SharingBase, BaseName, Certs;
    NormalizedIsNormal(ds);
    FirstPerCertWithin(ds);
    forall d | d in Normalized(ds)
      ensures exists o :: o in ds && o.uuid == d.uuid
    {
      var i :| 0 <= i < |Normalized(ds)| && Normalized(ds)[i] == d;
      assert FirstPerCert(ds)[i] in FirstPerCert(ds);
    }
  }

  lemma {:induction false} FirstPerCertWithin(ds: seq<Device>)
    ensures forall d :: d in FirstPerCert(ds) ==> d in ds
  {
    if ds != [] {
      FirstPerCertWithin(ds[..|ds| - 1]);
    }
  }

  /** The device list and the certificate chain in memory, and the state file. */
  class Store {
    var clientRoot: seq<Device>
    var certChain: seq<Device>
    var file: StateFile

    constructor (file: StateFile)
      ensures clientRoot == [] && certChain == [] && this.file == file
    {
      clientRoot, certChain, this.file := [], [], file;
    }

    /** The chain lists exactly the devices, and another save and load would change nothing. */
    ghost predicate Settled()
      reads this
    {
      && certChain == clientRoot
      && Normalized(clientRoot) == clientRoot
      && file.Document? && file.oldCerts == [] && LoadedFrom(file.devices) == clientRoot
    }

    /** Writes the devices, unless a file is there that cannot be read: a load would then give them back normalised. */
    method SaveState(w: Write)
      modifies this`file
      ensures old(file).Unreadable? || w == NotOpened ==> file == old(file)
      ensures !old(file).Unreadable? && w == Emptied ==> file == Unreadable
      ensures !old(file).Unreadable? && w == Written ==>
        && file.Document? && file.oldCerts == [] && LoadedFrom(file.devices) == Normalized(clientRoot)
        && |file.devices| == |FirstPerCert(clientRoot)| && forall n :: n in file.devices ==> n.name.Some? && n.cert.Some?
    {
      if file.Unreadable? {
        return;
      }
      var nodes := NodesToSave(clientRoot);
      match w
      case Written => file := Document([], nodes);
      case NotOpened =>
      case Emptied => file := Unreadable;
    }

    /** Replaces the devices and the chain by what the file lists; a file that cannot be used leaves both alone. */
    method LoadState(uuids: nat -> string)
      modifies this`clientRoot, this`certChain
      ensures clientRoot == LoadedInto(file, uuids, old(clientRoot))
      ensures certChain == if file.Document? then clientRoot else old(certChain)
      ensures match file
        case Document(certs, nodes) =>
          && |clientRoot| == |certs| + |nodes|
          && (forall i :: 0 <= i < |certs| ==> Imported(clientRoot[i], certs[i]) && clientRoot[i].uuid == uuids(i))
          && forall i :: 0 <= i < |nodes| ==> ReadFrom(clientRoot[|certs| + i], nodes[i])
        case _ => clientRoot == old(clientRoot)
    {
      if !file.Document? {
        return;
      }
      hide LoadedFrom, OldDevices, Imported, ReadFrom;
      OldAreImported(file.oldCerts, uuids);
      LoadedIsRead(file.devices);
      var client: seq<Device> := [];
      var certs, nodes := file.oldCerts, file.devices;
      NothingLoaded(certs, nodes, uuids);
      for i := 0 to |certs|
        invariant file == old(file)
        invariant client == OldDevices(certs[..i], uuids)
      {
        OldDevicesStep(certs, uuids, i);
        client := client + [Device("", certs[i], uuids(i), "", PERM_ALL, true, true, false, [], [])];
      }
      for i := 0 to |nodes|
        invariant file == old(file)
        invariant client == OldDevices(certs, uuids) + LoadedFrom(nodes[..i])
      {
        LoadedStep(OldDevices(certs, uuids), nodes, i);
        client := client + [FromNode(nodes[i])];
      }
      certChain := [];
      for i := 0 to |client|
        invariant file == old(file)
        invariant certChain == client[..i]
      {
        certChain := certChain + [client[i]];
      }
      clientRoot := client;
    }

    /** Adds a device that has just paired. */
    method AddAuthorizedClient(d: Device, freshState: bool, w: Write, uuids: nat -> string)
      modifies this
      ensures w == Written ==> clientRoot == Added(old(clientRoot), d, !freshState && !old(file).Unreadable?)
      ensures freshState || old(file).Unreadable? ==> clientRoot == old(clientRoot) + [d] && certChain == old(certChain) && file == old(file)
      ensures !freshState && !old(file).Unreadable? && w == Written ==> Settled()
      // a file emptied by a failed write can no longer be read, and the new device is not in the chain
      ensures !freshState && !old(file).Unreadable? && w == Emptied ==>
        clientRoot == old(clientRoot) + [d] && certChain == old(certChain) && file == Unreadable
      // one that could not be opened is read back as it was, and the new device is lost
      ensures !freshState && w == NotOpened ==> clientRoot == LoadedInto(old(file), uuids, old(clientRoot) + [d])
      ensures !freshState && w == NotOpened && old(Settled()) ==> Settled() && clientRoot == old(clientRoot)
    {
      hide Normalized, LoadedFrom, OldDevices, FirstPerCert, Certs;
      NoneOld(uuids);
      clientRoot := clientRoot + [d];
      if !freshState {
        SaveState(w);
        LoadState(uuids);
        NormalizedTwice(old(clientRoot) + [d]);
      }
    }

    /** The erasing loop of an unpairing. */
    method EraseUuid(uuid: string) returns (removed: bool)
      modifies this`clientRoot
      ensures clientRoot == Without(old(clientRoot), uuid)
      ensures removed <==> exists d :: d in old(clientRoot) && d.uuid == uuid
    {
      hide Without;
      removed := false;
      ghost var ds := clientRoot;
      ghost var kept: seq<Device> := [];
      ghost var k := 0;
      WithoutNone(uuid);
      assert ds[..0] == [];
      var it := 0;
      while it < |clientRoot|
        invariant k <= |ds|
        invariant kept == Without(ds[..k], uuid) && it == |kept|
        invariant clientRoot == kept + ds[k..]
        invariant removed <==> exists j :: 0 <= j < k && ds[j].uuid == uuid
        decreases |clientRoot| - it
      {
        WithoutStep(ds, k, uuid);
        EraseAt(kept, ds, k);
        if clientRoot[it].uuid == uuid {
          clientRoot := clientRoot[..it] + clientRoot[it + 1..];
          removed := true;
        } else {
          kept := kept + [ds[k]];
          it := it + 1;
        }
        k := k + 1;
      }
      assert ds[..k] == ds;
    }

    /** Removes every device with this uuid. */
    method UnpairClient(uuid: string, w: Write, uuids: nat -> string) returns (removed: bool)
      modifies this
      ensures removed <==> exists d :: d in old(clientRoot) && d.uuid == uuid
      ensures w == Written ==> clientRoot == Removed(old(clientRoot), uuid, !old(file).Unreadable?)
      ensures old(file).Unreadable? ==> certChain == old(certChain) && file == old(file)
      ensures !old(file).Unreadable? && w == Written ==> Settled()
      // a file emptied by a failed write can no longer be read, and the chain still lists the devices removed
      ensures !old(file).Unreadable? && w == Emptied ==>
        clientRoot == Without(old(clientRoot), uuid) && certChain == old(certChain) && file == Unreadable
      // if the file could not be opened for writing, the devices removed come back with it
      ensures w == NotOpened && old(Settled()) ==> Settled() && clientRoot == old(clientRoot)
    {
      hide Without, Normalized, LoadedFrom, OldDevices, FirstPerCert, Certs;
      NoneOld(uuids);
      removed := EraseUuid(uuid);
      SaveState(w);
      LoadState(uuids);
      NormalizedTwice(Without(old(clientRoot), uuid));
    }
  }

  lemma NormalizedTwice(ds: seq<Device>)
    ensures Normalized(Normalized(ds)) == Normalized(ds)
  {
    NormalizedIsNormal(ds);
  }

  lemma NothingLoaded(certs: seq<string>, nodes: seq<Node>, uuids: nat -> string)
    ensures OldDevices(certs[..0], uuids) == [] && OldDevices(certs, uuids) == OldDevices(certs, uuids) + LoadedFrom(nodes[..0])
    ensures certs[..|certs|] == certs && nodes[..|nodes|] == nodes
  {
  }

  lemma EraseAt(kept: seq<Device>, ds: seq<Device>, k: nat)
    requires k < |ds|
    ensures var whole := kept + ds[k..];
            && whole[|kept|] == ds[k]
            && whole[..|kept|] + whole[|kept| + 1..] == kept + ds[k + 1..]
            && whole == kept + [ds[k]] + ds[k + 1..]
  {
  }

  lemma WithoutNone(uuid: string)
    ensures Without([], uuid) == []
  {
  }

  lemma BaseIs(name: string)
    ensures BaseName(name) == name[..FindParen(name)]
  {
  }

  lemma EmptyLists()
    ensures FirstPerCert([]) == [] && LoadedFrom([]) == [] && Renamed([]) == [] && Certs([]) == {}
    ensures forall base :: CountBase([], base) == 0
  {
  }
}
