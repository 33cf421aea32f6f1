/** The argument helpers of the Python binding: cleaning a name, looking a
    colour map up by name, choosing between a named map and the default,
    and parsing the symmetry keyword. Characters are the bytes of the C
    string; lower-casing and white space follow the C locale. */
module Names {

  datatype Option<T> = None | Some(value: T)

  // ----- cleanString -----

  /** tolower in the C locale: only 'A'..'Z' change. */
  function Lower(c: char): (r: char)
    ensures !('A' <= r <= 'Z')
    ensures !('A' <= c <= 'Z') ==> r == c
  {
    if 'A' <= c <= 'Z' then (c as int + 32) as char else c
  }

  /** isspace in the C locale: space, tab, newline, vertical tab, form feed
      and carriage return. */
  predicate IsSpace(c: char) {
    c == ' ' || c == '\t' || c == '\n' || c == '\U{B}' || c == '\U{C}' || c == '\r'
  }

  /** Every character lower-cased. */
  function LowerAll(s: string): (r: string)
    ensures |r| == |s| && forall i :: 0 <= i < |s| ==> r[i] == Lower(s[i])
  {
    seq(|s|, i requires 0 <= i < |s| => Lower(s[i]))
  }

  /** The characters that are not white space, in order (the effect of
      erase(remove_if(isspace))). */
  function RemoveSpace(s: string): string {
    if |s| == 0 then ""
    else RemoveSpace(s[..|s| - 1]) + (if IsSpace(s[|s| - 1]) then "" else [s[|s| - 1]])
  }

  /** The cleaned name: lower case, white space removed. */
  function Clean(s: string): string {
    RemoveSpace(LowerAll(s))
  }

  /** cleanString, in place on a buffer: the lower-casing pass, then the
      remove_if compaction of the characters to keep, then the erase of
      the tail. */
  method CleanString(s: string) returns (r: string)
    ensures r == Clean(s)
  {
    var a := new char[|s|](i requires 0 <= i < |s| => s[i]);
    assert a[..] == s;
    LowerInPlace(a);
    var w := EraseSpace(a);
    r := a[..w];
  }

  /** The std::transform pass: every character to lower case, in place. */
  method LowerInPlace(a: array<char>)
    modifies a
    ensures a[..] == LowerAll(old(a[..]))
  {
    ghost var s := a[..];
    for i := 0 to a.Length
      invariant forall k :: 0 <= k < i ==> a[k] == Lower(s[k])
      invariant forall k :: i <= k < a.Length ==> a[k] == s[k]
    {
      a[i] := Lower(a[i]);
    }
  }

  /** The remove_if pass: the characters that are not white space are moved
      to the front, in order; w is where erase cuts the string. */
  method EraseSpace(a: array<char>) returns (w: nat)
    modifies a
    ensures w <= a.Length && a[..w] == RemoveSpace(old(a[..]))
  {
    ghost var low := a[..];
    w := 0;
    for i := 0 to a.Length
      invariant w <= i
      invariant a[..w] == RemoveSpace(low[..i])
      invariant a[i..] == low[i..]
    {
      assert low[..i + 1] == low[..i] + [low[i]];
      var c := a[i];
      if !IsSpace(c) {
        a[w] := c;
        w := w + 1;
      }
      assert a[i + 1..] == low[i + 1..];
    }
    assert low[..a.Length] == low;
  }

  /** Removing white space splits over concatenation. */
  lemma {:induction false} RemoveSpaceConcat(a: string, b: string)
    ensures RemoveSpace(a + b) == RemoveSpace(a) + RemoveSpace(b)
    decreases |b|
  {
    if |b| == 0 {
      assert a + b == a;
    } else {
      var b' := b[..|b| - 1];
      assert (a + b)[..|a + b| - 1] == a + b';
      assert (a + b)[|a + b| - 1] == b[|b| - 1];
      RemoveSpaceConcat(a, b');
    }
  }

  /** The result of removing white space holds none and consists of
      characters of the input. */
  lemma {:induction false} RemoveSpaceChars(s: string)
    ensures forall i :: 0 <= i < |RemoveSpace(s)| ==> !IsSpace(RemoveSpace(s)[i])
    ensures forall c :: c in RemoveSpace(s) ==> c in s
    decreases |s|
  {
    if |s| > 0 {
      RemoveSpaceChars(s[..|s| - 1]);
      assert forall c :: c in s[..|s| - 1] ==> c in s;
    }
  }

  /** A string without white space is its own RemoveSpace. */
  lemma {:induction false} RemoveSpaceNone(s: string)
    requires forall i :: 0 <= i < |s| ==> !IsSpace(s[i])
    ensures RemoveSpace(s) == s
    decreases |s|
  {
    if |s| > 0 {
      RemoveSpaceNone(s[..|s| - 1]);
      assert s[..|s| - 1] + [s[|s| - 1]] == s;
    }
  }

  /** A cleaned name holds no white space and no upper-case letter. */
  lemma CleanChars(s: string)
    ensures forall i :: 0 <= i < |Clean(s)| ==> !IsSpace(Clean(s)[i])
    ensures forall i :: 0 <= i < |Clean(s)| ==> !('A' <= Clean(s)[i] <= 'Z')
  {
    RemoveSpaceChars(LowerAll(s));
    forall i | 0 <= i < |Clean(s)|
      ensures !('A' <= Clean(s)[i] <= 'Z')
    {
      var c := Clean(s)[i];
      assert c in LowerAll(s);
    }
  }

  /** Cleaning twice is cleaning once. */
  lemma CleanIdempotent(s: string)
    ensures Clean(Clean(s)) == Clean(s)
  {
    var c := Clean(s);
    CleanChars(s);
    assert LowerAll(c) == c;
    RemoveSpaceNone(c);
  }

  /** Cleaning splits over concatenation. */
  lemma CleanConcat(a: string, b: string)
    ensures Clean(a + b) == Clean(a) + Clean(b)
  {
    assert LowerAll(a + b) == LowerAll(a) + LowerAll(b);
    RemoveSpaceConcat(LowerAll(a), LowerAll(b));
  }

  // ----- the name lookups -----

  datatype Ramp = Gray | Fire | Ocean | Ice | Div
  datatype Cyclic = Gray | Four | Six | Div

  /** The disk, sphere and ball families each offer a four- and a six-colour
      map. */
  datatype Family = Disk | Sphere | Ball
  datatype Colors = Four | Six
  datatype Bicone = Bicone(family: Family, colors: Colors)

  function RampName(m: Ramp): string {
    match m
    case Gray => "gray" case Fire => "fire" case Ocean => "ocean" case Ice => "ice" case Div => "div"
  }

  function CyclicName(m: Cyclic): string {
    match m case Gray => "gray" case Four => "four" case Six => "six" case Div => "div"
  }

  function ColorsName(m: Colors): string {
    match m case Four => "four" case Six => "six"
  }

  /** getRamp: accepts exactly gray, fire, ocean, ice and div, after
      cleaning. */
  function GetRamp(name: string): (r: Option<Ramp>)
    ensures r.Some? <==> Clean(name) in {"gray", "fire", "ocean", "ice", "div"}
    ensures r.Some? ==> Clean(name) == RampName(r.value)
  {
    var name := Clean(name);
    if name == "gray" then Some(Ramp.Gray)
    else if name == "fire" then Some(Ramp.Fire)
    else if name == "ocean" then Some(Ramp.Ocean)
    else if name == "ice" then Some(Ramp.Ice)
    else if name == "div" then Some(Ramp.Div)
    else None
  }

  /** getCyclic: accepts exactly gray, four, six and div, after cleaning. */
  function GetCyclic(name: string): (r: Option<Cyclic>)
    ensures r.Some? <==> Clean(name) in {"gray", "four", "six", "div"}
    ensures r.Some? ==> Clean(name) == CyclicName(r.value)
  {
    var name := Clean(name);
    if name == "gray" then Some(Cyclic.Gray)
    else if name == "four" then Some(Cyclic.Four)
    else if name == "six" then Some(Cyclic.Six)
    else if name == "div" then Some(Cyclic.Div)
    else None
  }

  /** getDisk, getSphere and getBall, one per family: each accepts exactly
      four and six, after cleaning, and returns the map of its own family. */
  function GetBicone(family: Family, name: string): (r: Option<Bicone>)
    ensures r.Some? <==> Clean(name) in {"four", "six"}
    ensures r.Some? ==> r.value.family == family && Clean(name) == ColorsName(r.value.colors)
  {
    var name := Clean(name);
    if name == "four" then Some(Bicone(family, Colors.Four))
    else if name == "six" then Some(Bicone(family, Colors.Six))
    else None
  }

  /** Each ramp is found under its own name, whatever the case and the
      white space around it: getRamp inverts the names. */
  lemma RampNameFound(m: Ramp, pre: string, post: string)
    requires Clean(pre) == "" && Clean(post) == ""
    ensures GetRamp(pre + RampName(m) + post) == Some(m)
  {
    CleanAround(pre, RampName(m), post);
  }

  /** getCyclic inverts the cyclic names. */
  lemma CyclicNameFound(m: Cyclic, pre: string, post: string)
    requires Clean(pre) == "" && Clean(post) == ""
    ensures GetCyclic(pre + CyclicName(m) + post) == Some(m)
  {
    CleanAround(pre, CyclicName(m), post);
  }

  /** getDisk, getSphere and getBall invert the four/six names. */
  lemma BiconeNameFound(f: Family, m: Colors, pre: string, post: string)
    requires Clean(pre) == "" && Clean(post) == ""
    ensures GetBicone(f, pre + ColorsName(m) + post) == Some(Bicone(f, m))
  {
    CleanAround(pre, ColorsName(m), post);
  }

  /** Padding that cleans to nothing around a clean name leaves the name. */
  lemma CleanAround(pre: string, name: string, post: string)
    requires Clean(pre) == "" && Clean(post) == ""
    requires forall i :: 0 <= i < |name| ==> 'a' <= name[i] <= 'z'
    ensures Clean(pre + name + post) == name
  {
    CleanConcat(pre + name, post);
    CleanConcat(pre, name);
    CleanWord(name);
  }

  /** A word of lower-case letters is already clean. */
  lemma CleanWord(name: string)
    requires forall i :: 0 <= i < |name| ==> 'a' <= name[i] <= 'z'
    ensures Clean(name) == name
  {
    assert LowerAll(name) == name;
    RemoveSpaceNone(name);
  }

  /** The lookups depend on the name only through its cleaned form. */
  lemma LookupsUseCleanName(name: string)
    ensures GetRamp(Clean(name)) == GetRamp(name)
    ensures GetCyclic(Clean(name)) == GetCyclic(name)
    ensures forall f :: GetBicone(f, Clean(name)) == GetBicone(f, name)
  {
    CleanIdempotent(name);
  }

  // ----- getMap -----

  /** What getMap leaves behind: the map chosen and whether it warned, the
      failure for an unknown name with nothing to fall back to, or the
      logic_error when neither a name nor a default is given. */
  datatype MapChoice<F> = Chosen(f: F, warned: bool) | Unknown | LogicError

  function GetMap<F>(name: Option<string>, default: Option<F>, fetch: string -> Option<F>): MapChoice<F> {
    if name.Some? then
      var found := fetch(name.value);
      if found.Some? then Chosen(found.value, false)
      else if default.Some? then Chosen(default.value, true)
      else Unknown
    else if default.Some? then Chosen(default.value, false)
    else LogicError
  }

  /** getMap's four outcomes: a name that resolves is used silently; an
      unknown name falls back to the default with a warning, or fails when
      there is none; no name takes the default, or throws when there is
      none. It warns exactly when a name was given that did not resolve and
      a default was there to fall back on. */
  lemma GetMapCases<F>(name: Option<string>, default: Option<F>, fetch: string -> Option<F>)
    ensures name.Some? && fetch(name.value).Some? ==>
      GetMap(name, default, fetch) == Chosen(fetch(name.value).value, false)
    ensures name.Some? && fetch(name.value).None? && default.Some? ==>
      GetMap(name, default, fetch) == Chosen(default.value, true)
    ensures GetMap(name, default, fetch) == Unknown <==>
      name.Some? && fetch(name.value).None? && default.None?
    ensures name.None? && default.Some? ==> GetMap(name, default, fetch) == Chosen(default.value, false)
    ensures GetMap(name, default, fetch) == LogicError <==> name.None? && default.None?
    ensures (GetMap(name, default, fetch).Chosen? && GetMap(name, default, fetch).warned) <==>
      name.Some? && fetch(name.value).None? && default.Some?
  {
  }

  /** With a default present getMap never fails. */
  lemma GetMapWithDefault<F>(name: Option<string>, default: Option<F>, fetch: string -> Option<F>)
    requires default.Some?
    ensures GetMap(name, default, fetch).Chosen?
  {
  }

  // ----- parseSym -----

  datatype Sym = NoSym | Azimuth | Polar

  /** The 'sym' keyword as the binding receives it: not given, None, an
      object that converts to a string, or one that does not. */
  datatype SymArg = Absent | PyNone | Str(s: string) | NotString

  datatype SymResult = Parsed(sym: Sym) | SymError(message: string)

  const SymConvertError := "couldn't convert 'sym' to string"
  const SymValueError := "'sym' must be one of {None, 'a', 'p'}"

  function ParseSym(arg: SymArg): (r: SymResult)
    ensures r == Parsed(NoSym) <==>
      arg == Absent || arg == PyNone || (arg.Str? && Clean(arg.s) == "")
    ensures r == Parsed(Azimuth) <==> arg.Str? && Clean(arg.s) == "a"
    ensures r == Parsed(Polar) <==> arg.Str? && Clean(arg.s) == "p"
    ensures r.SymError? <==> arg == NotString || (arg.Str? && Clean(arg.s) !in {"", "a", "p"})
  {
    match arg
    case Absent => Parsed(NoSym)
    case PyNone => Parsed(NoSym)
    case NotString => SymError(SymConvertError)
    case Str(s) =>
      var name := Clean(s);
      if name == "" then Parsed(NoSym)
      else if name == "a" then Parsed(Azimuth)
      else if name == "p" then Parsed(Polar)
      else SymError(SymValueError)
  }

  /** Case and spacing do not matter to parseSym. */
  lemma ParseSymUsesCleanName(s: string)
    ensures ParseSym(Str(Clean(s))) == ParseSym(Str(s))
  {
    CleanIdempotent(s);
  }
}
