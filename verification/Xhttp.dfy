/**
The XHTTP settings normaliser of core/xray/inbound.go: a rewrite of a JSON tree that replaces
arrays where objects are expected, and drops settings one mode does not allow.
*/
module Xhttp {

  datatype Json =
    | Null
    | Bool(b: bool)
    | Number(text: string)
    | Str(s: string)
    | Arr(items: seq<Json>)
    | Obj(fields: map<string, Json>)

  // ---------- strings ----------

  /** Lower case, exact for every character whose lower case is an ASCII letter. */
  function LowerChar(c: char): char {
    if 'A' <= c <= 'Z' then (c - 'A' + 'a')
    else if c == '\U{212A}' then 'k'
    else if c == '\U{0130}' then 'i'
    else c
  }

  function ToLower(s: string): string {
    seq(|s|, i requires 0 <= i < |s| => LowerChar(s[i]))
  }

  /** Simple case folding, exact for every character that folds to an ASCII letter. */
  function FoldChar(c: char): char {
    if 'A' <= c <= 'Z' then (c - 'A' + 'a')
    else if c == '\U{212A}' then 'k'
    else if c == '\U{017F}' then 's'
    else c
  }

  function Fold(s: string): string {
    seq(|s|, i requires 0 <= i < |s| => FoldChar(s[i]))
  }

  predicate IsSpace(c: char) {
    || '\U{0009}' <= c <= '\U{000D}' || c == ' ' || c == '\U{0085}' || c == '\U{00A0}' || c == '\U{1680}'
    || '\U{2000}' <= c <= '\U{200A}' || c == '\U{2028}' || c == '\U{2029}' || c == '\U{202F}' || c == '\U{205F}'
    || c == '\U{3000}'
  }

  function TrimLeft(s: string): string {
    if s != "" && IsSpace(s[0]) then TrimLeft(s[1..]) else s
  }

  function TrimRight(s: string): string {
    if s != "" && IsSpace(s[|s| - 1]) then TrimRight(s[..|s| - 1]) else s
  }

  function TrimSpace(s: string): string {
    TrimRight(TrimLeft(s))
  }

  /** Equal once upper-case ASCII letters are lower, and the two other characters whose lower case is ASCII are too. */
  predicate LowersTo(a: string, name: string) {
    |a| == |name| && forall i :: 0 <= i < |a| ==>
      || (a[i] == name[i] && !('A' <= a[i] <= 'Z') && a[i] as int != 0x212A && a[i] as int != 0x130)
      || ('A' <= a[i] <= 'Z' && name[i] as int == a[i] as int + 32)
      || (a[i] as int == 0x212A && name[i] == 'k') || (a[i] as int == 0x130 && name[i] == 'i')
  }

  lemma ToLowerIff(a: string, name: string)
    ensures ToLower(a) == name <==> LowersTo(a, name)
  {
    if LowersTo(a, name) {
      assert forall i :: 0 <= i < |a| ==> LowerChar(a[i]) == name[i];
    }
  }

  /** Equal under simple case folding, to a name in lower-case ASCII. */
  predicate FoldsTo(a: string, name: string) {
    |a| == |name| && forall i :: 0 <= i < |a| ==>
      || (a[i] == name[i] && !('A' <= a[i] <= 'Z') && a[i] as int != 0x212A && a[i] as int != 0x17F)
      || ('A' <= a[i] <= 'Z' && name[i] as int == a[i] as int + 32)
      || (a[i] as int == 0x212A && name[i] == 'k') || (a[i] as int == 0x17F && name[i] == 's')
  }

  lemma FoldIff(a: string, name: string)
    ensures Fold(a) == name <==> FoldsTo(a, name)
  {
    if FoldsTo(a, name) {
      assert forall i :: 0 <= i < |a| ==> FoldChar(a[i]) == name[i];
    }
  }

  /** The characters trimmed are those of Unicode's White_Space property. */
  lemma SpacesAreWhiteSpace(c: char)
    ensures IsSpace(c) <==>
              var u := c as int;
              || 9 <= u <= 13 || u == 32 || u == 133 || u == 160 || u == 5760 || 8192 <= u <= 8202
              || u == 8232 || u == 8233 || u == 8239 || u == 8287 || u == 12288
  {
  }

  predicate Blank(s: string) {
    forall c :: c in s ==> IsSpace(c)
  }

  lemma {:induction false} TrimLeftTrims(s: string) returns (lead: string)
    ensures Blank(lead) && s == lead + TrimLeft(s) && (TrimLeft(s) != "" ==> !IsSpace(TrimLeft(s)[0]))
  {
    lead := "";
    if s != "" && IsSpace(s[0]) {
      lead := TrimLeftTrims(s[1..]);
      lead := [s[0]] + lead;
    }
  }

  lemma {:induction false} TrimRightTrims(s: string) returns (tail: string)
    ensures Blank(tail) && s == TrimRight(s) + tail && (TrimRight(s) != "" ==> !IsSpace(TrimRight(s)[|TrimRight(s)| - 1]))
  {
    tail := "";
    if s != "" && IsSpace(s[|s| - 1]) {
      tail := TrimRightTrims(s[..|s| - 1]);
      tail := tail + [s[|s| - 1]];
    }
  }

  /** Trimming takes spaces, and only spaces, off both ends, and leaves none there. */
  lemma TrimSpaceTrims(s: string) returns (lead: string, tail: string)
    ensures Blank(lead) && Blank(tail) && s == lead + TrimSpace(s) + tail
    ensures TrimSpace(s) != "" ==> !IsSpace(TrimSpace(s)[0]) && !IsSpace(TrimSpace(s)[|TrimSpace(s)| - 1])
  {
    lead := TrimLeftTrims(s);
    tail := TrimRightTrims(TrimLeft(s));
    if TrimSpace(s) != "" {
      assert TrimSpace(s)[0] == TrimLeft(s)[0];
    }
  }

  // ---------- headers ----------

  datatype MaybeHeader = NoHeader | Header(name: string, value: string)

  /** The first of the keys that holds a string, trimmed; the empty string when none does. */
  function PickHeaderString(m: map<string, Json>, keys: seq<string>): string {
    if keys == [] then ""
    else if keys[0] in m && m[keys[0]].Str? then TrimSpace(m[keys[0]].s)
    else PickHeaderString(m, keys[1..])
  }

  function ColonAt(s: string): nat {
    if s == "" || s[0] == ':' then 0 else 1 + ColonAt(s[1..])
  }

  lemma {:induction false} ColonIsFirst(s: string)
    ensures ColonAt(s) <= |s| && ':' !in s[..ColonAt(s)] && (ColonAt(s) < |s| ==> s[ColonAt(s)] == ':')
  {
    if s != "" && s[0] != ':' {
      ColonIsFirst(s[1..]);
      assert s[..ColonAt(s)] == [s[0]] + s[1..][..ColonAt(s[1..])];
    }
  }

  /** The header one array element stands for, if any. */
  function HeaderOf(item: Json): MaybeHeader {
    match item
    case Obj(h) =>
      var name := PickHeaderString(h, ["name", "key", "header"]);
      if name == "" then NoHeader else Header(name, PickHeaderString(h, ["value", "val", "v"]))
    case Str(h) =>
      ColonIsFirst(h);
      var at := ColonAt(h);
      if at == |h| then NoHeader
      else
        var name := TrimSpace(h[..at]);
        if name == "" then NoHeader else Header(name, TrimSpace(h[at + 1..]))
    case _ => NoHeader
  }

  /** Of the accepted keys the first that holds a string decides. */
  lemma {:induction false} FirstStringDecides(m: map<string, Json>, keys: seq<string>, i: nat)
    requires i < |keys| && keys[i] in m && m[keys[i]].Str?
    requires forall j :: 0 <= j < i ==> keys[j] in m ==> !m[keys[j]].Str?
    ensures PickHeaderString(m, keys) == TrimSpace(m[keys[i]].s)
  {
    if i > 0 {
      assert keys[0] in m ==> !m[keys[0]].Str?;
      assert forall j :: 0 <= j < i - 1 ==> keys[1..][j] == keys[j + 1];
      FirstStringDecides(m, keys[1..], i - 1);
    }
  }

  /** The text of the first of three keys that holds a string, or none. */
  predicate ReadsAs(m: map<string, Json>, a: string, b: string, c: string, text: string) {
    if a in m && m[a].Str? then text == TrimSpace(m[a].s)
    else if b in m && m[b].Str? then text == TrimSpace(m[b].s)
    else if c in m && m[c].Str? then text == TrimSpace(m[c].s)
    else text == ""
  }

  /** A header object is named by "name", "key" or "header" and valued by "value", "val" or "v", in this order. */
  lemma HeaderObjectIsRead(m: map<string, Json>, name: string, value: string)
    requires ReadsAs(m, "name", "key", "header", name) && ReadsAs(m, "value", "val", "v", value)
    ensures HeaderOf(Obj(m)) == if name == "" then NoHeader else Header(name, value)
  {
    PickOfThree(m, "name", "key", "header");
    PickOfThree(m, "value", "val", "v");
  }

  lemma PickOfThree(m: map<string, Json>, a: string, b: string, c: string)
    ensures ReadsAs(m, a, b, c, PickHeaderString(m, [a, b, c]))
  {
    assert [a, b, c][1..] == [b, c] && [b, c][1..] == [c] && [c][1..] == [];
    assert PickHeaderString(m, [c]) == if c in m && m[c].Str? then TrimSpace(m[c].s) else "";
    assert PickHeaderString(m, [b, c]) == if b in m && m[b].Str? then TrimSpace(m[b].s) else PickHeaderString(m, [c]);
  }

  /** Anything but an object, or a string with a colon and a name before it, is no header. */
  lemma OtherElementsAreNoHeaders(item: Json)
    requires item.Str? ==> ':' !in item.s
    requires !item.Obj?
    ensures HeaderOf(item) == NoHeader
  {
    if item.Str? {
      ColonIsFirst(item.s);
      assert forall i :: 0 <= i < |item.s| ==> item.s[i] in item.s;
    }
  }

  /** A header line is cut at its first colon. */
  lemma HeaderLineIsCut(name: string, value: string)
    requires ':' !in name && TrimSpace(name) != ""
    ensures HeaderOf(Str(name + ":" + value)) == Header(TrimSpace(name), TrimSpace(value))
  {
    var s := name + ":" + value;
    ColonIsFirst(s);
    var at := ColonAt(s);
    assert s[|name|] == ':';
    assert forall k :: 0 <= k < |name| ==> s[k] == name[k] && name[k] in name;
    assert forall k :: 0 <= k < at ==> s[k] == s[..at][k] && s[..at][k] in s[..at];
    assert s[..at] == name && s[at + 1..] == value;
  }

  function HeadersOf(arr: seq<Json>): map<string, Json> {
    if arr == [] then map[]
    else
      var before := HeadersOf(arr[..|arr| - 1]);
      match HeaderOf(arr[|arr| - 1])
      case NoHeader => before
      case Header(name, value) => before[name := Str(value)]
  }

  /** A header is in the object exactly when some element names it, and the last such element gives its value. */
  lemma {:induction false} LastHeaderWins(arr: seq<Json>, i: nat)
    requires i < |arr| && HeaderOf(arr[i]).Header?
    requires forall j :: i < j < |arr| && HeaderOf(arr[j]).Header? ==> HeaderOf(arr[j]).name != HeaderOf(arr[i]).name
    ensures HeaderOf(arr[i]).name in HeadersOf(arr)
    ensures HeadersOf(arr)[HeaderOf(arr[i]).name] == Str(HeaderOf(arr[i]).value)
  {
    if i < |arr| - 1 {
      LastHeaderWins(arr[..|arr| - 1], i);
    }
  }

  lemma {:induction false} HeadersComeFromElements(arr: seq<Json>, name: string)
    requires name in HeadersOf(arr)
    ensures HeadersOf(arr)[name].Str?
    ensures exists i :: 0 <= i < |arr| && HeaderOf(arr[i]).Header? && HeaderOf(arr[i]).name == name
  {
    var n := |arr| - 1;
    if HeaderOf(arr[n]).Header? && HeaderOf(arr[n]).name == name {
    } else {
      HeadersComeFromElements(arr[..n], name);
      var i :| 0 <= i < n && HeaderOf(arr[..n][i]).Header? && HeaderOf(arr[..n][i]).name == name;
      assert arr[..n][i] == arr[i];
    }
  }

  // ---------- the rewrite ----------

  const EMPTIED := {"sockopt", "tlssettings", "xhttpsettings", "downloadsettings", "xmux"}

  /** Keys, in any letter case, under which an array is not allowed. */
  predicate IsListed(key: string) {
    ToLower(key) == "headers" || ToLower(key) in EMPTIED
  }

  /** The listed names are these six, in any letter case, and no others. */
  lemma ListedIff(key: string)
    ensures IsListed(key) <==>
              || LowersTo(key, "headers") || LowersTo(key, "sockopt") || LowersTo(key, "tlssettings")
              || LowersTo(key, "xhttpsettings") || LowersTo(key, "downloadsettings") || LowersTo(key, "xmux")
  {
    ToLowerIff(key, "headers");
    ToLowerIff(key, "sockopt");
    ToLowerIff(key, "tlssettings");
    ToLowerIff(key, "xhttpsettings");
    ToLowerIff(key, "downloadsettings");
    ToLowerIff(key, "xmux");
  }

  function FixField(key: string, child: Json): Json {
    if !child.Arr? then child
    else if ToLower(key) == "headers" then Obj(HeadersOf(child.items))
    else if ToLower(key) in EMPTIED then Obj(map[])
    else child
  }

  function Normalized(v: Json): Json {
    match v
    case Obj(fields) => Obj(map k | k in fields :: FixField(k, Normalized(fields[k])))
    case Arr(items) => Arr(seq(|items|, i requires 0 <= i < |items| => Normalized(items[i])))
    case _ => v
  }

  /** No array stands under a listed key, at any depth. */
  predicate InForm(v: Json) {
    match v
    case Obj(fields) => forall k :: k in fields ==> InForm(fields[k]) && (IsListed(k) ==> !fields[k].Arr?)
    case Arr(items) => forall i :: 0 <= i < |items| ==> InForm(items[i])
    case _ => true
  }

  lemma {:induction false} NormalizedIsInForm(v: Json)
    ensures InForm(Normalized(v))
  {
    match v
    case Obj(fields) =>
      forall k | k in fields
        ensures InForm(FixField(k, Normalized(fields[k]))) && (IsListed(k) ==> !FixField(k, Normalized(fields[k])).Arr?)
      {
        NormalizedIsInForm(fields[k]);
        FixedFieldIsInForm(k, Normalized(fields[k]));
      }
    case Arr(items) =>
      forall i | 0 <= i < |items|
        ensures InForm(Normalized(items[i]))
      {
        NormalizedIsInForm(items[i]);
      }
    case _ =>
  }

  lemma FixedFieldIsInForm(key: string, child: Json)
    requires InForm(child)
    ensures InForm(FixField(key, child)) && (IsListed(key) ==> !FixField(key, child).Arr?)
  {
    if child.Arr? && ToLower(key) == "headers" {
      forall name | name in HeadersOf(child.items)
        ensures HeadersOf(child.items)[name].Str?
      {
        HeadersComeFromElements(child.items, name);
      }
    }
  }

  lemma {:induction false} InFormIsFixed(v: Json)
    requires InForm(v)
    ensures Normalized(v) == v
  {
    match v
    case Obj(fields) =>
      forall k | k in fields
        ensures FixField(k, Normalized(fields[k])) == fields[k]
      {
        InFormIsFixed(fields[k]);
      }
      assert (map k | k in fields :: FixField(k, Normalized(fields[k]))) == fields;
    case Arr(items) =>
      forall i | 0 <= i < |items|
        ensures Normalized(items[i]) == items[i]
      {
        InFormIsFixed(items[i]);
      }
      assert Normalized(v).items == items;
    case _ =>
  }

  // ---------- what the rewrite leaves alone ----------

  datatype Seg = Key(k: string) | Index(i: nat)

  datatype MaybeJson = Absent | Present(v: Json)

  /** What stands at a path from the root. */
  function Lookup(v: Json, path: seq<Seg>): MaybeJson
    decreases path
  {
    if path == [] then Present(v)
    else
      match path[0]
      case Key(k) => if v.Obj? && k in v.fields then Lookup(v.fields[k], path[1..]) else Absent
      case Index(i) => if v.Arr? && i < |v.items| then Lookup(v.items[i], path[1..]) else Absent
  }

  /** No step of the path goes to an array under a listed key. */
  predicate AvoidsRewrites(v: Json, path: seq<Seg>)
    decreases path
  {
    path != [] ==>
      match path[0]
      case Key(k) => v.Obj? && k in v.fields ==>
        !(IsListed(k) && v.fields[k].Arr?) && AvoidsRewrites(v.fields[k], path[1..])
      case Index(i) => v.Arr? && i < |v.items| ==> AvoidsRewrites(v.items[i], path[1..])
  }

  lemma {:induction false} NormalizedLookup(v: Json, path: seq<Seg>)
    requires AvoidsRewrites(v, path)
    ensures Lookup(Normalized(v), path) ==
              match Lookup(v, path) { case Absent => Absent case Present(x) => Present(Normalized(x)) }
    decreases path
  {
    if path != [] {
      match path[0]
      case Key(k) =>
        if v.Obj? && k in v.fields {
          assert Normalized(v.fields[k]).Arr? <==> v.fields[k].Arr?;
          NormalizedLookup(v.fields[k], path[1..]);
        }
      case Index(i) =>
        if v.Arr? && i < |v.items| {
          NormalizedLookup(v.items[i], path[1..]);
        }
    }
  }

  /**
  Off the arrays under listed keys nothing is touched: a path that goes to none of them leads
  somewhere after the rewrite exactly when it did before, to a container of the same kind or the same value.
  */
  lemma {:induction false} OtherPathsAreKept(v: Json, path: seq<Seg>)
    requires AvoidsRewrites(v, path)
    ensures Lookup(Normalized(v), path).Present? <==> Lookup(v, path).Present?
    ensures Lookup(v, path).Present? ==>
              var (x, y) := (Lookup(v, path).v, Lookup(Normalized(v), path).v);
              (x.Obj? <==> y.Obj?) && (x.Arr? <==> y.Arr?) && (!x.Obj? && !x.Arr? ==> x == y)
  {
    NormalizedLookup(v, path);
  }

  lemma {:induction false} LookupAppend(v: Json, path: seq<Seg>, more: seq<Seg>)
    ensures Lookup(v, path + more) == match Lookup(v, path) { case Absent => Absent case Present(x) => Lookup(x, more) }
    decreases path
  {
    if path == [] {
      assert path + more == more;
    } else {
      assert (path + more)[1..] == path[1..] + more;
      match path[0]
      case Key(k) => if v.Obj? && k in v.fields { LookupAppend(v.fields[k], path[1..], more); }
      case Index(i) => if v.Arr? && i < |v.items| { LookupAppend(v.items[i], path[1..], more); }
    }
  }

  /**
  An array under a listed key, wherever it stands, becomes its header object when the key is
  "headers", and otherwise an empty object.
  */
  lemma ListedArraysAreReplaced(v: Json, path: seq<Seg>, key: string, items: seq<Json>)
    requires AvoidsRewrites(v, path) && IsListed(key) && Lookup(v, path + [Key(key)]) == Present(Arr(items))
    ensures Lookup(Normalized(v), path + [Key(key)]) ==
              if LowersTo(key, "headers") then Present(Obj(HeadersOf(Normalized(Arr(items)).items))) else Present(Obj(map[]))
  {
    LookupAppend(v, path, [Key(key)]);
    LookupAppend(Normalized(v), path, [Key(key)]);
    NormalizedLookup(v, path);
    ToLowerIff(key, "headers");
    assert [Key(key)][1..] == [];
    var x := Lookup(v, path).v;
    assert x.Obj? && key in x.fields && x.fields[key] == Arr(items);
    assert Normalized(x).fields[key] == FixField(key, Normalized(Arr(items)));
  }

  // ---------- the compatibility step ----------

  const DOWNLOAD := "downloadSettings"

  predicate IsStreamOne(v: Json) {
    v.Obj? && "mode" in v.fields && v.fields["mode"].Str? && Fold(TrimSpace(v.fields["mode"].s)) == "stream-one"
  }

  /** The mode is "stream-one" in any letter case and with space around it, and nothing else. */
  lemma StreamOneIff(v: Json)
    ensures IsStreamOne(v) <==>
              v.Obj? && "mode" in v.fields && v.fields["mode"].Str? && FoldsTo(TrimSpace(v.fields["mode"].s), "stream-one")
  {
    if v.Obj? && "mode" in v.fields && v.fields["mode"].Str? {
      FoldIff(TrimSpace(v.fields["mode"].s), "stream-one");
    }
  }

  function WithoutDownload(v: Json): Json {
    if v.Obj? then Obj(v.fields - {DOWNLOAD}) else v
  }

  /** In stream-one mode the download settings are dropped, at the top and under "extra". */
  function Compat(v: Json): Json {
    if !IsStreamOne(v) then v
    else
      var fields := v.fields - {DOWNLOAD};
      Obj(if "extra" in fields then fields["extra" := WithoutDownload(fields["extra"])] else fields)
  }

  function Normalize(v: Json): Json {
    Compat(Normalized(v))
  }

  predicate HasDownload(v: Json) {
    v.Obj? && DOWNLOAD in v.fields
  }

  /** Download settings where stream-one mode does not allow them. */
  predicate HasForbiddenDownload(v: Json) {
    IsStreamOne(v) && (HasDownload(v) || ("extra" in v.fields && HasDownload(v.fields["extra"])))
  }

  /** The same object, but for the download settings at the top and under "extra". */
  predicate OnlyDownloadGone(v: Json, w: Json) {
    && v.Obj? && w.Obj? && w.fields.Keys == v.fields.Keys - {DOWNLOAD}
    && (forall k :: k in w.fields && k != "extra" ==> w.fields[k] == v.fields[k])
    && ("extra" in w.fields ==>
          var (before, after) := (v.fields["extra"], w.fields["extra"]);
          if !before.Obj? then after == before
          else
            && after.Obj? && after.fields.Keys == before.fields.Keys - {DOWNLOAD}
            && forall k :: k in after.fields ==> after.fields[k] == before.fields[k])
  }

  lemma CompatKeepsForm(v: Json)
    requires InForm(v)
    ensures InForm(Compat(v))
  {
  }

  /** In any other mode nothing is dropped; in this one both settings are. */
  lemma OtherModesKeepDownload(v: Json)
    ensures !IsStreamOne(v) ==> Compat(v) == v
    ensures IsStreamOne(v) ==>
              && "downloadSettings" !in Compat(v).fields
              && ("extra" in v.fields && v.fields["extra"].Obj? ==>
                    "extra" in Compat(v).fields && Compat(v).fields["extra"].Obj?
                    && "downloadSettings" !in Compat(v).fields["extra"].fields)
  {
  }

  lemma CompatClears(v: Json)
    ensures !HasForbiddenDownload(Compat(v))
    ensures Compat(v) == v <==> !HasForbiddenDownload(v)
    ensures HasForbiddenDownload(v) ==> OnlyDownloadGone(v, Compat(v))
  {
    if IsStreamOne(v) && !HasForbiddenDownload(v) {
      assert v.fields - {DOWNLOAD} == v.fields;
      if "extra" in v.fields {
        assert v.fields["extra"].Obj? ==> v.fields["extra"].fields - {DOWNLOAD} == v.fields["extra"].fields;
        assert v.fields["extra" := v.fields["extra"]] == v.fields;
      }
    } else if HasForbiddenDownload(v) {
      assert "extra" in v.fields ==> "extra" in Compat(v).fields && !HasDownload(Compat(v).fields["extra"]);
      assert DOWNLOAD !in Compat(v).fields;
    }
  }

  /**
  The whole rewrite leaves no array under a listed key and no forbidden download settings, and it
  leaves a tree alone if and only if the tree is already like that. So it reaches its fixed point at once.
  */
  lemma NormalizeReachesItsFixedPoint(v: Json)
    ensures InForm(Normalize(v)) && !HasForbiddenDownload(Normalize(v))
    ensures Normalize(v) == v <==> InForm(v) && !HasForbiddenDownload(v)
    ensures Normalize(Normalize(v)) == Normalize(v)
  {
    NormalizedIsInForm(v);
    CompatKeepsForm(Normalized(v));
    CompatClears(Normalized(v));
    if InForm(v) {
      InFormIsFixed(v);
    }
    var once := Normalize(v);
    InFormIsFixed(once);
    CompatClears(once);
  }

  // ---------- the code that does it ----------

  method HeadersArrayToMap(arr: seq<Json>) returns (headers: map<string, Json>)
    ensures headers == HeadersOf(arr)
  {
    headers := map[];
    for i := 0 to |arr|
      invariant headers == HeadersOf(arr[..i])
    {
      assert arr[..i + 1][..i] == arr[..i];
      match arr[i]
      case Obj(h) =>
        var k := PickHeaderString(h, ["name", "key", "header"]);
        if k != "" {
          headers := headers[k := Str(PickHeaderString(h, ["value", "val", "v"]))];
        }
      case Str(h) =>
        ColonIsFirst(h);
        var at := ColonAt(h);
        if at < |h| {
          var k := TrimSpace(h[..at]);
          if k != "" {
            headers := headers[k := Str(TrimSpace(h[at + 1..]))];
          }
        }
      case _ =>
    }
    assert arr[..|arr|] == arr;
  }

  /** Rewrites a tree field by field, in whatever order the fields come. */
  method NormalizeValue(v: Json) returns (r: Json)
    ensures r == Normalized(v)
    decreases v
  {
    match v
    case Obj(fields) =>
      var t := fields;
      var pending := fields.Keys;
      while pending != {}
        invariant pending <= fields.Keys == t.Keys
        invariant forall k :: k in pending ==> t[k] == fields[k]
        invariant forall k :: k in fields && k !in pending ==> t[k] == FixField(k, Normalized(fields[k]))
        decreases pending
      {
        var k :| k in pending;
        pending := pending - {k};
        var child := NormalizeValue(fields[k]);
        t := t[k := child];
        if child.Arr? {
          if ToLower(k) == "headers" {
            var headers := HeadersArrayToMap(child.items);
            t := t[k := Obj(headers)];
          } else if ToLower(k) in EMPTIED {
            t := t[k := Obj(map[])];
          }
        }
      }
      assert t == Normalized(v).fields;
      r := Obj(t);
    case Arr(items) =>
      var t := items;
      for i := 0 to |items|
        invariant |t| == |items|
        invariant forall j :: 0 <= j < i ==> t[j] == Normalized(items[j])
        invariant forall j :: i <= j < |items| ==> t[j] == items[j]
      {
        var item := NormalizeValue(items[i]);
        t := t[i := item];
      }
      assert t == Normalized(v).items;
      r := Arr(t);
    case _ =>
      r := v;
  }

  method NormalizeSettings(v: Json) returns (r: Json)
    ensures r == Normalize(v)
  {
    var normalized := NormalizeValue(v);
    r := Compat(normalized);
  }
}
