/** The command-line parser: it looks options up by full or partial name, and rotates the arguments that are
    no options to the end of argv as it goes. */
module SimpleOpt {

  datatype ArgType = SO_NONE | SO_REQ_SEP | SO_REQ_CMB | SO_OPT | SO_MULTI

  datatype Error =
    | SO_SUCCESS | SO_OPT_INVALID | SO_OPT_MULTIPLE
    | SO_ARG_INVALID | SO_ARG_INVALID_TYPE | SO_ARG_MISSING | SO_ARG_INVALID_DATA

  /** An entry of the options table; texts hold no zero character. */
  datatype OptionSpec = OptionSpec(nId: nat, pszArg: string, nArgType: ArgType)

  datatype Flags = Flags(exact: bool, shortarg: bool, clump: bool, useall: bool, noerr: bool, pedantic: bool,
                         icase_short: bool, icase_long: bool, icase_word: bool)

  const EXACT_ONLY := Flags(true, false, false, false, false, false, false, false, false)

  // ----- Matching one name

  function Lower(c: char): char {
    if 'A' <= c <= 'Z' then (c as int + ('a' as int - 'A' as int)) as char else c
  }

  /** Whether an option of this form is matched without regard to case. */
  function IgnoresCase(flags: Flags, source: string): bool {
    if source == [] || source[0] != '-' then flags.icase_word
    else if |source| == 2 && source[1] != '-' then flags.icase_short
    else if |source| == 1 then flags.icase_short
    else flags.icase_long
  }

  predicate IsEqual(a: char, b: char, icase: bool) {
    if icase then Lower(a) == Lower(b) else a == b
  }

  /** The number of leading hyphens. */
  function Hyphens(s: string): (n: nat)
    ensures n <= |s| && (forall i :: 0 <= i < n ==> s[i] == '-') && (n < |s| ==> s[n] != '-')
  {
    if s != [] && s[0] == '-' then 1 + Hyphens(s[1..]) else 0
  }

  ghost predicate SameStart(a: string, b: string, n: nat, icase: bool)
    requires n <= |a| && n <= |b|
  {
    forall i :: 0 <= i < n ==> IsEqual(a[i], b[i], icase)
  }

  /** The test, up to case, begins the option: same hyphens, and its name is a start of the option's. */
  ghost predicate Begins(source: string, test: string, icase: bool) {
    && Hyphens(source) == Hyphens(test) && |test| <= |source|
    && SameStart(source[Hyphens(source)..], test[Hyphens(test)..], |test| - Hyphens(test), icase)
  }

  ghost predicate Perfect(source: string, test: string, icase: bool) {
    Begins(source, test, icase) && |test| == |source|
  }

  /** A proper, not empty start. */
  ghost predicate Partial(source: string, test: string, icase: bool) {
    Begins(source, test, icase) && Hyphens(test) < |test| < |source|
  }

  /** Two characters match without regard to case if they are the same, or one letter small and capital. */
  lemma CaseFolds(a: char, b: char)
    ensures IsEqual(a, b, true)
            <==> a == b || ('A' <= a <= 'Z' && b as int == a as int + 32)
                 || ('A' <= b <= 'Z' && a as int == b as int + 32)
  {
  }

  /** One hyphen and at most one letter is a short option, no hyphen a word, anything else a long option. */
  lemma CaseOfForm(flags: Flags, source: string)
    ensures IgnoresCase(flags, source) == (if Hyphens(source) == 0 then flags.icase_word
                                           else if Hyphens(source) == 1 && |source| <= 2 then flags.icase_short
                                           else flags.icase_long)
  {
    if source != [] && source[0] == '-' {
      assert Hyphens(source) == 1 + Hyphens(source[1..]);
      assert |source| > 1 ==> source[1..][0] == source[1];
    }
  }

  /** With regard to case, a perfect match is the option itself and a partial one a start of it. */
  lemma ExactCase(source: string, test: string)
    ensures Perfect(source, test, false) <==> source == test
    ensures Partial(source, test, false) <==> Hyphens(source) == Hyphens(test) < |test| && test < source
  {
    if Begins(source, test, false) {
      var h := Hyphens(source);
      forall i | 0 <= i < |test| ensures test[i] == source[i] {
        if i >= h {
          assert IsEqual(source[h..][i - h], test[h..][i - h], false);
        }
      }
      assert test == source[..|test|];
    }
    if test <= source && Hyphens(source) == Hyphens(test) {
      var h := Hyphens(source);
      forall i | 0 <= i < |test| - h ensures IsEqual(source[h..][i], test[h..][i], false) {
        assert test[h + i] == source[h + i];
      }
    }
  }

  lemma {:induction false} HyphensAre(s: string, n: nat)
    requires n <= |s| && (forall i :: 0 <= i < n ==> s[i] == '-') && (n < |s| ==> s[n] != '-')
    ensures Hyphens(s) == n
  {
    if n > 0 {
      HyphensAre(s[1..], n - 1);
    }
  }

  /** CalcMatch: -1 for a perfect match, the length of the name for a partial one, 0 for none. */
  method CalcMatch(flags: Flags, source: string, test: string) returns (r: int)
    ensures r == -1 <==> Perfect(source, test, IgnoresCase(flags, source))
    ensures r > 0 <==> Partial(source, test, IgnoresCase(flags, source))
    ensures r > 0 ==> r == |test| - Hyphens(test)
    ensures r >= -1
  {
    var icase := IgnoresCase(flags, source);
    var h := 0;
    while h < |source| && h < |test| && source[h] == '-' && source[h] == test[h]
      invariant h <= |source| && h <= |test|
      invariant forall i :: 0 <= i < h ==> source[i] == '-' == test[i]
    {
      h := h + 1;
    }
    if (h < |source| && source[h] == '-') || (h < |test| && test[h] == '-') {
      return 0;
    }
    HyphensAre(source, h);
    HyphensAre(test, h);
    var n := 0;
    while h + n < |source| && h + n < |test| && IsEqual(source[h + n], test[h + n], icase)
      invariant h + n <= |source| && h + n <= |test|
      invariant SameStart(source[h..], test[h..], n, icase)
    {
      assert source[h..][n] == source[h + n] && test[h..][n] == test[h + n];
      n := n + 1;
    }
    assert h + n < |source| && h + n < |test| ==> !IsEqual(source[h..][n], test[h..][n], icase);
    if h + n == |source| {
      return if h + n == |test| then -1 else 0;
    }
    if h + n < |test| {
      return 0;
    }
    r := n;
  }

  // ----- Looking a name up

  datatype Lookup = Found(n: nat) | NotFound(error: Error)

  ghost predicate IsPerfect(options: seq<OptionSpec>, flags: Flags, test: string, n: int) {
    0 <= n < |options| && Perfect(options[n].pszArg, test, IgnoresCase(flags, options[n].pszArg))
  }

  ghost predicate IsPartial(options: seq<OptionSpec>, flags: Flags, test: string, n: int) {
    0 <= n < |options| && Partial(options[n].pszArg, test, IgnoresCase(flags, options[n].pszArg))
  }

  /** What looking `test` up must give: the first perfect match; failing that, and unless partial matches are
      off, the one option that the name begins. */
  ghost predicate LooksUp(options: seq<OptionSpec>, flags: Flags, test: string, r: Lookup) {
    match r
    case Found(n) =>
      || (IsPerfect(options, flags, test, n) && forall m :: 0 <= m < n ==> !IsPerfect(options, flags, test, m))
      || (!flags.exact && IsPartial(options, flags, test, n)
          && (forall m :: !IsPerfect(options, flags, test, m))
             && (forall m :: IsPartial(options, flags, test, m) ==> m == n))
    case NotFound(e) =>
      && (forall m :: !IsPerfect(options, flags, test, m))
      && (if e == SO_OPT_MULTIPLE
          then !flags.exact
               && exists m, n :: m != n && IsPartial(options, flags, test, m) && IsPartial(options, flags, test, n)
          else e == SO_OPT_INVALID && (flags.exact || forall m :: !IsPartial(options, flags, test, m)))
  }

  lemma LookupIsUnique(options: seq<OptionSpec>, flags: Flags, test: string, a: Lookup, b: Lookup)
    requires LooksUp(options, flags, test, a) && LooksUp(options, flags, test, b)
    ensures a == b
  {
    if a.Found? && b.Found? && IsPerfect(options, flags, test, a.n) && IsPerfect(options, flags, test, b.n) {
      assert !(a.n < b.n) && !(b.n < a.n);
    }
  }

  /** LookupOption: one pass that remembers the best partial match and the one before it.  All partial matches
      of one name are equally long, so a second one spoils the first. */
  method LookupOption(options: seq<OptionSpec>, flags: Flags, test: string) returns (r: Lookup)
    ensures LooksUp(options, flags, test, r)
  {
    hide Perfect, Partial;
    var nBestMatch, nBestMatchLen, nLastMatchLen := -1, 0, 0;
    ghost var len := |test| - Hyphens(test);
    ghost var other := -1;
    for n := 0 to |options|
      invariant forall m :: 0 <= m < n ==> !IsPerfect(options, flags, test, m)
      invariant nBestMatch == -1 <==> nBestMatchLen == 0
      invariant nBestMatch == -1 ==> nLastMatchLen == 0 && forall m :: 0 <= m < n ==>
                !IsPartial(options, flags, test, m)
      invariant nBestMatch != -1 ==>
                nBestMatchLen == len > 0 && 0 <= nBestMatch < n && IsPartial(options, flags, test, nBestMatch)
      invariant nBestMatch != -1 && nLastMatchLen == 0 ==>
                  forall m :: 0 <= m < n && IsPartial(options, flags, test, m) ==> m == nBestMatch
      invariant nLastMatchLen == 0 || nLastMatchLen == len
      invariant nLastMatchLen != 0 ==> other != nBestMatch && IsPartial(options, flags, test, other)
    {
      var nMatchLen := CalcMatch(flags, options[n].pszArg, test);
      if nMatchLen == -1 {
        assert IsPerfect(options, flags, test, n);
        return Found(n);
      }
      if nMatchLen > 0 && nMatchLen >= nBestMatchLen {
        nLastMatchLen := nBestMatchLen;
        nBestMatchLen := nMatchLen;
        other := nBestMatch;
        nBestMatch := n;
      }
    }
    if flags.exact || nBestMatch == -1 {
      return NotFound(SO_OPT_INVALID);
    }
    r := if nBestMatchLen > nLastMatchLen then Found(nBestMatch) else NotFound(SO_OPT_MULTIPLE);
  }

  lemma {:induction false} FirstPerfect(options: seq<OptionSpec>, flags: Flags, test: string, n: nat)
    returns (first: int)
    requires IsPerfect(options, flags, test, n)
    ensures IsPerfect(options, flags, test, first) && forall m :: 0 <= m < first ==> !IsPerfect(options, flags, test, m)
  {
    if m :| 0 <= m < n && IsPerfect(options, flags, test, m) {
      first := FirstPerfect(options, flags, test, m);
    } else {
      first := n;
    }
  }

  lemma LookupExists(options: seq<OptionSpec>, flags: Flags, test: string)
    ensures exists r :: LooksUp(options, flags, test, r)
  {
    hide IsPerfect, IsPartial;
    if n :| 0 <= n && IsPerfect(options, flags, test, n) {
      var first := FirstPerfect(options, flags, test, n);
      PerfectIsIndex(options, flags, test, first);
      assert LooksUp(options, flags, test, Found(first));
    } else {
      forall m ensures !IsPerfect(options, flags, test, m) {
        if m < 0 {
          NoNegative(options, flags, test, m);
        }
      }
      if flags.exact || !(exists m :: IsPartial(options, flags, test, m)) {
        assert LooksUp(options, flags, test, NotFound(SO_OPT_INVALID));
      } else {
        var m :| IsPartial(options, flags, test, m);
        PartialIsIndex(options, flags, test, m);
        if n :| n != m && IsPartial(options, flags, test, n) {
          assert LooksUp(options, flags, test, NotFound(SO_OPT_MULTIPLE));
        } else {
          assert LooksUp(options, flags, test, Found(m));
        }
      }
    }
  }

  lemma NoNegative(options: seq<OptionSpec>, flags: Flags, test: string, n: int)
    requires n < 0
    ensures !IsPerfect(options, flags, test, n)
  {
  }

  lemma PerfectIsIndex(options: seq<OptionSpec>, flags: Flags, test: string, n: int)
    requires IsPerfect(options, flags, test, n)
    ensures 0 <= n < |options|
  {
  }

  lemma PartialIsIndex(options: seq<OptionSpec>, flags: Flags, test: string, n: int)
    requires IsPartial(options, flags, test, n)
    ensures 0 <= n < |options|
  {
  }

  ghost function LookupOf(options: seq<OptionSpec>, flags: Flags, test: string): (r: Lookup)
    ensures LooksUp(options, flags, test, r)
    ensures r.Found? ==> r.n < |options|
  {
    LookupExists(options, flags, test);
    var r :| LooksUp(options, flags, test, r);
    r
  }

  // ----- What an argument is

  datatype OptArg = NoArg | Arg(text: string)

  datatype Kind = IsOption(n: nat, arg: OptArg) | IsClump | IsError(error: Error) | IsData

  /** Where the first equals sign is, or the length. */
  function EqualsAt(s: string): (n: nat)
    ensures n <= |s| && (n < |s| ==> s[n] == '=') && forall i :: 0 <= i < n ==> s[i] != '='
  {
    if s == [] || s[0] == '=' then 0 else 1 + EqualsAt(s[1..])
  }

  /** The name of an argument, and what is combined with it by an equals sign. */
  function Name(s: string): string {
    if s != [] && s[0] == '-' then s[..EqualsAt(s)] else s
  }

  function Combined(s: string): OptArg {
    if s != [] && s[0] == '-' && EqualsAt(s) < |s| then Arg(s[EqualsAt(s) + 1..]) else NoArg
  }

  /** The first equals sign of an option parts its name from its argument; other texts are names as they stand. */
  lemma NameAndArgument(s: string)
    ensures Combined(s).Arg? <==> s != [] && s[0] == '-' && '=' in s
    ensures Combined(s).Arg? ==> s == Name(s) + "=" + Combined(s).text && '=' !in Name(s)
    ensures Combined(s) == NoArg ==> Name(s) == s
  {
    var n := EqualsAt(s);
    if n < |s| {
      assert s == s[..n] + ['='] + s[n + 1..];
    } else {
      assert s[..n] == s;
    }
  }

  /** -xyz, without an equals sign */
  predicate IsShortForm(s: string) {
    Combined(s) == NoArg && |s| > 2 && s[0] == '-' && s[1] != '-'
  }

  predicate TakesShortArg(o: OptionSpec) {
    o.nArgType == SO_REQ_CMB || o.nArgType == SO_OPT
  }

  /** An option by name; a short form with its argument; a clump of short options; and what is nothing of the
      sort is data, or an error if it looks like an option and errors are wanted. */
  ghost function KindOf(options: seq<OptionSpec>, flags: Flags, s: string): (k: Kind)
    ensures k.IsOption? ==> k.n < |options|
    ensures k == IsClump ==> |s| > 2
  {
    var named := LookupOf(options, flags, Name(s));
    if named.Found? then IsOption(named.n, Combined(s))
    else
      var short := if IsShortForm(s) && flags.shortarg then LookupOf(options, flags, ['-', s[1]])
                   else NotFound(SO_OPT_INVALID);
      if short.Found? && TakesShortArg(options[short.n]) then IsOption(short.n, Arg(s[2..]))
      else if IsShortForm(s) && flags.clump then IsClump
      else if !flags.noerr && s != [] && s[0] == '-' then IsError(named.error)
      else IsData
  }

  method FindEquals(s: string) returns (n: nat)
    ensures n == EqualsAt(s)
  {
    n := 0;
    assert s[0..] == s;
    while n < |s| && s[n] != '='
      invariant n <= |s| && EqualsAt(s) == n + EqualsAt(s[n..])
    {
      assert s[n..][1..] == s[n + 1..];
      n := n + 1;
    }
  }

  /** One round of the search in Next. */
  method Classify(options: seq<OptionSpec>, flags: Flags, pszArg: string) returns (k: Kind)
    ensures k == KindOf(options, flags, pszArg)
  {
    hide LooksUp;
    var name, combined := pszArg, NoArg;
    if pszArg != [] && pszArg[0] == '-' {
      var e := FindEquals(pszArg);
      name := pszArg[..e];
      if e < |pszArg| {
        combined := Arg(pszArg[e + 1..]);
      }
    }
    var nTableIdx := LookupOption(options, flags, name);
    LookupIsUnique(options, flags, name, nTableIdx, LookupOf(options, flags, name));
    if nTableIdx.Found? {
      return IsOption(nTableIdx.n, combined);
    }
    if combined == NoArg && |pszArg| > 2 && pszArg[0] == '-' && pszArg[1] != '-' {
      if flags.shortarg {
        var nIdx := LookupOption(options, flags, ['-', pszArg[1]]);
        LookupIsUnique(options, flags, ['-', pszArg[1]], nIdx, LookupOf(options, flags, ['-', pszArg[1]]));
        if nIdx.Found? && TakesShortArg(options[nIdx.n]) {
          return IsOption(nIdx.n, Arg(pszArg[2..]));
        }
      }
      if flags.clump {
        return IsClump;
      }
    }
    if !flags.noerr && pszArg != [] && pszArg[0] == '-' {
      return IsError(nTableIdx.error);
    }
    k := IsData;
  }

  // ----- The arguments and their order

  /** The part an argument has played once it is behind the parser. */
  datatype Role = Program | Option | Separate | File

  /** The arguments that are files, or those that are not, in order. */
  function Pick(args: seq<nat>, roles: seq<Role>, files: bool): seq<nat>
    requires |args| == |roles|
  {
    if args == [] then []
    else
      var n := |args| - 1;
      Pick(args[..n], roles[..n], files) + (if (roles[n] == File) == files then [args[n]] else [])
  }

  lemma {:induction false} PickAll(args: seq<nat>, roles: seq<Role>)
    requires |args| == |roles|
    ensures multiset(Pick(args, roles, false)) + multiset(Pick(args, roles, true)) == multiset(args)
  {
    if args != [] {
      var n := |args| - 1;
      PickAll(args[..n], roles[..n]);
      assert args == args[..n] + [args[n]];
    }
  }

  function Files(n: nat): (r: seq<Role>)
    ensures |r| == n && forall i :: 0 <= i < n ==> r[i] == File
  {
    seq(n, i => File)
  }

  lemma {:induction false} PickFiles(args: seq<nat>, roles: seq<Role>, more: seq<nat>)
    requires |args| == |roles|
    ensures Pick(args + more, roles + Files(|more|), true) == Pick(args, roles, true) + more
    ensures Pick(args + more, roles + Files(|more|), false) == Pick(args, roles, false)
  {
    if more == [] {
      assert args + more == args && roles + Files(0) == roles;
    } else {
      var n := |more| - 1;
      assert (args + more)[..|args| + n] == args + more[..n];
      assert (roles + Files(|more|))[..|args| + n] == roles + Files(n);
      PickFiles(args, roles, more[..n]);
      assert more == more[..n] + [more[n]];
    }
  }

  lemma PickOne(args: seq<nat>, roles: seq<Role>, arg: nat, role: Role)
    requires |args| == |roles| && role != File
    ensures Pick(args + [arg], roles + [role], true) == Pick(args, roles, true)
    ensures Pick(args + [arg], roles + [role], false) == Pick(args, roles, false) + [arg]
  {
    assert (args + [arg])[..|args|] == args && (roles + [role])[..|args|] == roles;
  }

  // ----- What the parser must report, as a function of the arguments

  datatype Event = Event(id: int, text: string, arg: OptArg, error: Error)

  predicate WantsSeparate(options: seq<OptionSpec>, k: Kind)
    requires k.IsOption? ==> k.n < |options|
  {
    k.IsOption? && options[k.n].nArgType == SO_REQ_SEP && k.arg == NoArg
  }

  predicate CanBeArg(flags: Flags, s: string) {
    flags.noerr || s == [] || s[0] != '-'
  }

  /** Whether the first argument is an option that takes the second for its own. */
  ghost predicate Takes(options: seq<OptionSpec>, flags: Flags, args: seq<string>) {
    |args| > 1 && WantsSeparate(options, KindOf(options, flags, args[0])) && CanBeArg(flags, args[1])
  }

  /** The error that goes with an option that is given by itself. */
  function AloneError(t: ArgType, arg: OptArg, pedantic: bool, last: bool): Error {
    match t
    case SO_NONE => if arg.Arg? then SO_ARG_INVALID else SO_SUCCESS
    case SO_REQ_SEP =>
      if arg == NoArg then (if last then SO_ARG_MISSING else SO_ARG_INVALID_DATA)
      else if pedantic then SO_ARG_INVALID_TYPE else SO_SUCCESS
    case SO_REQ_CMB => if arg.Arg? then SO_SUCCESS else SO_ARG_MISSING
    case _ => SO_SUCCESS
  }

  /** The letters of a clump, each by its exact short name. */
  ghost function ClumpEvents(options: seq<OptionSpec>, noerr: bool, s: string): seq<Event> {
    if s == [] then []
    else
      var r := LookupOf(options, EXACT_ONLY, ['-', s[0]]);
      if r.NotFound? then (if noerr then [] else [Event(-1, [], NoArg, r.error)]) + ClumpEvents(options, noerr, s[1..])
      else
        var o := options[r.n];
        if o.nArgType == SO_NONE then [Event(o.nId, o.pszArg, NoArg, SO_SUCCESS)] + ClumpEvents(options, noerr, s[1..])
        else if o.nArgType == SO_REQ_CMB && |s| > 1 then [Event(o.nId, o.pszArg, Arg(s[1..]), SO_SUCCESS)]
        else [Event(-1, o.pszArg, NoArg, SO_ARG_MISSING)] + ClumpEvents(options, noerr, s[1..])
  }

  /** What the first argument has the parser report, the one behind it included if it takes it. */
  ghost function FirstEvents(options: seq<OptionSpec>, flags: Flags, args: seq<string>): seq<Event>
    requires args != []
  {
    match KindOf(options, flags, args[0])
    case IsData => []
    case IsClump => ClumpEvents(options, flags.noerr, args[0][1..])
    case IsError(error) => [Event(-1, Name(args[0]), Combined(args[0]), error)]
    case IsOption(n, arg) =>
      if Takes(options, flags, args) then [Event(options[n].nId, options[n].pszArg, Arg(args[1]), SO_SUCCESS)]
      else [Event(options[n].nId, options[n].pszArg, arg,
                  AloneError(options[n].nArgType, arg, flags.pedantic, |args| == 1))]
  }

  /** What is reported of an option, type by type: whether an argument may, must or must not be there, combined with it
      or behind it. */
  lemma OptionByType(options: seq<OptionSpec>, flags: Flags, args: seq<string>, n: nat, arg: OptArg)
    requires args != [] && n < |options| && KindOf(options, flags, args[0]) == IsOption(n, arg)
    ensures var events := FirstEvents(options, flags, args);
            && |events| == 1 && events[0].id == options[n].nId && events[0].text == options[n].pszArg
            && (events[0].arg, events[0].error) ==
               match options[n].nArgType
               case SO_NONE => (arg, if arg == NoArg then SO_SUCCESS else SO_ARG_INVALID)
               case SO_REQ_CMB => (arg, if arg == NoArg then SO_ARG_MISSING else SO_SUCCESS)
               case SO_OPT => (arg, SO_SUCCESS)
               case SO_MULTI => (arg, SO_SUCCESS)
               case SO_REQ_SEP =>
                 if arg != NoArg then (arg, if flags.pedantic then SO_ARG_INVALID_TYPE else SO_SUCCESS)
                 else if |args| == 1 then (NoArg, SO_ARG_MISSING)
                 else if args[1] != [] && args[1][0] == '-' && !flags.noerr then (NoArg, SO_ARG_INVALID_DATA)
                 else (Arg(args[1]), SO_SUCCESS)
  {
    hide KindOf;
  }

  /** -xyz that is no option by name: x with argument yz if x may have one and short arguments are on; else the options
      x, y and z if clumps are on. */
  lemma ShortFormByFlags(options: seq<OptionSpec>, flags: Flags, s: string)
    requires |s| > 2 && s[0] == '-' && s[1] != '-' && '=' !in s && LookupOf(options, flags, s).NotFound?
    ensures var x := LookupOf(options, flags, ['-', s[1]]);
            if flags.shortarg && x.Found? && options[x.n].nArgType in {SO_REQ_CMB, SO_OPT} then
              KindOf(options, flags, s) == IsOption(x.n, Arg(s[2..]))
            else if flags.clump then KindOf(options, flags, s) == IsClump
            else if flags.noerr then KindOf(options, flags, s) == IsData
            else KindOf(options, flags, s).IsError?
  {
    hide LooksUp;
    NameAndArgument(s);
  }

  /** A parser that reads from front to back and moves nothing: all it reports. */
  ghost function Parse(options: seq<OptionSpec>, flags: Flags, args: seq<string>): seq<Event> {
    if args == [] then []
    else FirstEvents(options, flags, args)
         + Parse(options, flags, args[if Takes(options, flags, args) then 2 else 1..])
  }

  /** The part of each argument: files are what is neither an option nor taken by one. */
  ghost function RolesOf(options: seq<OptionSpec>, flags: Flags, args: seq<string>): (r: seq<Role>)
    ensures |r| == |args|
  {
    if args == [] then []
    else if Takes(options, flags, args) then [Option, Separate] + RolesOf(options, flags, args[2..])
    else [if KindOf(options, flags, args[0]) == IsData then File else Option] + RolesOf(options, flags, args[1..])
  }

  /** An argument is a file exactly if it is data that the option before it, itself an option, does not take. */
  lemma {:induction false} FilesAreData(options: seq<OptionSpec>, flags: Flags, args: seq<string>, i: nat)
    requires i < |args|
    ensures var roles := RolesOf(options, flags, args);
            && (roles[i] == Separate <==> i > 0 && roles[i - 1] == Option && Takes(options, flags, args[i - 1..]))
            && (roles[i] == File <==> roles[i] != Separate && KindOf(options, flags, args[i]) == IsData)
  {
    hide KindOf, RolesOf, Takes;
    var n := if Takes(options, flags, args) then 2 else 1;
    FirstRoles(options, flags, args);
    assert args[0..] == args;
    if i >= n {
      FilesAreData(options, flags, args[n..], i - n);
      assert i > n ==> args[n..][i - n - 1..] == args[i - 1..];
    }
  }

  /** The roles of the first argument and of the one it takes; the others start over. */
  lemma FirstRoles(options: seq<OptionSpec>, flags: Flags, args: seq<string>)
    requires args != []
    ensures var roles := RolesOf(options, flags, args);
            && (if Takes(options, flags, args)
                then |args| > 1 && roles[0] == Option && KindOf(options, flags, args[0]) != IsData
                     && roles[1] == Separate && roles[2..] == RolesOf(options, flags, args[2..])
                else roles[0] == (if KindOf(options, flags, args[0]) == IsData then File else Option)
                     && roles[1..] == RolesOf(options, flags, args[1..]))
  {
    hide KindOf;
  }

  /** Arguments that are data are passed over. */
  lemma {:induction false} SkipData(options: seq<OptionSpec>, flags: Flags, args: seq<string>, count: nat)
    requires count <= |args| && forall i :: 0 <= i < count ==> KindOf(options, flags, args[i]) == IsData
    ensures Parse(options, flags, args) == Parse(options, flags, args[count..])
    ensures RolesOf(options, flags, args) == Files(count) + RolesOf(options, flags, args[count..])
  {
    hide KindOf, Parse, RolesOf;
    if count == 0 {
      assert args[0..] == args;
    } else {
      SkipData(options, flags, args[1..], count - 1);
      SkipOne(options, flags, args);
      assert args[1..][count - 1..] == args[count..];
      assert Files(count) == [File] + Files(count - 1);
    }
  }

  lemma SkipOne(options: seq<OptionSpec>, flags: Flags, args: seq<string>)
    requires args != [] && KindOf(options, flags, args[0]) == IsData
    ensures Parse(options, flags, args) == Parse(options, flags, args[1..])
    ensures RolesOf(options, flags, args) == [File] + RolesOf(options, flags, args[1..])
  {
    hide KindOf;
  }

  /** The texts that pointers stand for. */
  function Texts(text: seq<string>, pointers: seq<nat>): (r: seq<string>)
    requires forall i :: 0 <= i < |pointers| ==> pointers[i] < |text|
    ensures |r| == |pointers| && forall i :: 0 <= i < |r| ==> r[i] == text[pointers[i]]
  {
    seq(|pointers|, i requires 0 <= i < |pointers| => text[pointers[i]])
  }

  /** Where argv stands: what is behind the parser, options and their arguments first, what it has still to
      read, and the files so far. */
  ghost predicate Arranged(argv: seq<nat>, orig: seq<nat>, roles: seq<Role>, next: nat, last: nat) {
    && next <= last <= |argv| == |orig| && |roles| == |orig| - (last - next)
    && argv[next..last] == orig[|roles|..]
    && argv[..next] == Pick(orig[..|roles|], roles, false)
    && argv[last..] == Pick(orig[..|roles|], roles, true)
  }

  lemma ArrangedPermutes(argv: seq<nat>, orig: seq<nat>, roles: seq<Role>, next: nat, last: nat)
    requires Arranged(argv, orig, roles, next, last)
    ensures multiset(argv) == multiset(orig)
  {
    hide Pick;
    PickAll(orig[..|roles|], roles);
    assert argv == argv[..next] + argv[next..last] + argv[last..];
    assert orig == orig[..|roles|] + orig[|roles|..];
  }

  function Rotated(argv: seq<nat>, start: nat, count: nat): seq<nat>
    requires start + count <= |argv|
  {
    argv[..start] + argv[start + count..] + argv[start..start + count]
  }

  /** Some files are skipped and moved to the end, and the argument behind them is taken. */
  lemma SkippedAndTaken(argv: seq<nat>, orig: seq<nat>, roles: seq<Role>, next: nat, last: nat, count: nat)
    requires Arranged(argv, orig, roles, next, last) && next + count < last
    ensures Arranged(Rotated(argv, next, count), orig, roles + Files(count) + [Option], next + 1, last - count)
  {
    hide Pick;
    var c := |roles|;
    var skipped, option := argv[next..next + count], argv[next + count];
    AheadIs(argv, orig, c, next, last, count);
    PickFiles(orig[..c], roles, skipped);
    assert orig[..c] + skipped == orig[..c + count];
    PickOne(orig[..c + count], roles + Files(count), option, Option);
    assert orig[..c + count] + [option] == orig[..c + count + 1];
    RotatedParts(argv, next, last, count);
  }

  lemma AheadIs(argv: seq<nat>, orig: seq<nat>, c: nat, next: nat, last: nat, count: nat)
    requires next <= last <= |argv| && c <= |orig| && argv[next..last] == orig[c..] && next + count < last
    ensures c + count < |orig|
    ensures argv[next..next + count] == orig[c..c + count] && argv[next + count] == orig[c + count]
    ensures argv[next + count + 1..last] == orig[c + count + 1..]
  {
    assert argv[next..next + count] == argv[next..last][..count] == orig[c..][..count];
    assert argv[next + count] == argv[next..last][count];
    assert argv[next + count + 1..last] == argv[next..last][count + 1..] == orig[c..][count + 1..];
  }

  lemma RotatedParts(argv: seq<nat>, next: nat, last: nat, count: nat)
    requires next + count < last <= |argv|
    ensures var r := Rotated(argv, next, count);
            && |r| == |argv| && r[..next + 1] == argv[..next] + [argv[next + count]]
            && r[next + 1..last - count] == argv[next + count + 1..last]
            && r[last - count..] == argv[last..] + argv[next..next + count]
  {
    var r := Rotated(argv, next, count);
    assert r[next + 1..last - count] == argv[next + count + 1..last] by {
      var rest := argv[next + count..];
      assert r[next + 1..last - count] == rest[1..last - count - next] == argv[next + count + 1..last];
    }
    assert r[last - count..] == argv[last..] + argv[next..next + count] by {
      assert argv[next + count..][last - count - next..] == argv[last..];
    }
  }

  lemma SkippedToTheEnd(argv: seq<nat>, orig: seq<nat>, roles: seq<Role>, next: nat, last: nat)
    requires Arranged(argv, orig, roles, next, last)
    ensures Arranged(Rotated(argv, next, last - next), orig, roles + Files(last - next), next, next)
  {
    var c, count := |roles|, last - next;
    var skipped := argv[next..last];
    PickFiles(orig[..c], roles, skipped);
    assert orig[..c] + skipped == orig;
    var r := Rotated(argv, next, count);
    assert r[..next] == argv[..next] && r[next..] == argv[last..] + skipped;
    assert orig[..|orig|] == orig;
    assert r[next..next] == [] == orig[|orig|..];
  }

  /** The next arguments are taken as they stand. */
  lemma {:induction false} TakenAsArguments(argv: seq<nat>, orig: seq<nat>, roles: seq<Role>, next: nat, last: nat,
                                            count: nat)
    requires Arranged(argv, orig, roles, next, last) && next + count <= last
    ensures Arranged(argv, orig, roles + Separates(count), next + count, last)
  {
    if count == 0 {
      assert roles + Separates(0) == roles;
    } else {
      hide Arranged, Pick;
      var n := count - 1;
      TakenAsArguments(argv, orig, roles, next, last, n);
      TakenAsArgument(argv, orig, roles + Separates(n), next + n, last);
      assert roles + Separates(n) + [Separate] == roles + Separates(count);
    }
  }

  lemma TakenAsArgument(argv: seq<nat>, orig: seq<nat>, roles: seq<Role>, next: nat, last: nat)
    requires Arranged(argv, orig, roles, next, last) && next < last
    ensures Arranged(argv, orig, roles + [Separate], next + 1, last)
  {
    var c := |roles|;
    assert argv[next] == argv[next..last][0] == orig[c..][0];
    PickOne(orig[..c], roles, orig[c], Separate);
    assert orig[..c] + [orig[c]] == orig[..c + 1];
    assert argv[..next + 1] == argv[..next] + [argv[next]];
    assert argv[next + 1..last] == argv[next..last][1..] == orig[c..][1..] == orig[c + 1..];
  }

  // ----- The parser

  class CSimpleOpt {
    const m_rgOptions: seq<OptionSpec>
    const m_nFlags: Flags
    const text: seq<string>          // what the pointers in argv point at
    const m_argv: array<nat>
    var m_nOptionIdx: nat
    var m_nNextOption: nat
    var m_nLastArg: nat
    var m_nOptionId: int
    var m_pszOptionText: string
    var m_pszOptionArg: OptArg
    var m_pszClump: string
    var m_nLastError: Error
    ghost const orig: seq<nat>
    ghost var roles: seq<Role>

    constructor (argv: array<nat>, text: seq<string>, options: seq<OptionSpec>, flags: Flags)
      requires argv.Length > 0 && forall i :: 0 <= i < argv.Length ==> argv[i] < |text|
      ensures Valid() && orig == argv[..] && m_argv == argv && this.text == text && m_rgOptions == options
              && m_nFlags == flags
      ensures m_pszClump == [] && m_nNextOption == |roles| && m_nLastArg == argv.Length
      ensures roles == if flags.useall then [] else [Program]
    {
      m_rgOptions, m_nFlags, this.text, m_argv := options, flags, text, argv;
      m_nLastArg := argv.Length;
      m_nNextOption := if flags.useall then 0 else 1;
      m_nOptionIdx, m_nOptionId, m_pszOptionText, m_pszOptionArg := 0, -1, [], NoArg;
      m_pszClump, m_nLastError := [], SO_SUCCESS;
      orig := argv[..];
      roles := if flags.useall then [] else [Program];
      new;
      FirstArranged(m_argv[..], m_nFlags.useall);
    }

    ghost predicate Valid()
      reads this, m_argv
    {
      && m_nLastArg <= m_argv.Length
      && Arranged(m_argv[..], orig, roles, m_nNextOption, m_nLastArg)
      && forall i :: 0 <= i < |orig| ==> orig[i] < |text|
    }

    /** The arguments that are still ahead of the parser. */
    ghost function Ahead(): seq<string>
      requires |roles| <= |orig| && forall i :: 0 <= i < |orig| ==> orig[i] < |text|
      reads this
    {
      Texts(text, orig[|roles|..])
    }

    /** What is still to be reported. */
    ghost function Pending(): seq<Event>
      requires |roles| <= |orig| && forall i :: 0 <= i < |orig| ==> orig[i] < |text|
      reads this
    {
      ClumpEvents(m_rgOptions, m_nFlags.noerr, m_pszClump) + Parse(m_rgOptions, m_nFlags, Ahead())
    }

    /** The parts the arguments have played, and those they will. */
    ghost function AllRoles(): seq<Role>
      requires |roles| <= |orig| && forall i :: 0 <= i < |orig| ==> orig[i] < |text|
      reads this
    {
      roles + RolesOf(m_rgOptions, m_nFlags, Ahead())
    }

    /** What the last call of Next has found. */
    function Reported(): Event
      reads this
    {
      Event(m_nOptionId, m_pszOptionText, m_pszOptionArg, m_nLastError)
    }

    /** The tail moves down, front first, and the moved elements are appended. */
    method ShuffleArg(start: nat, count: nat)
      requires start + count <= m_argv.Length && count <= m_nLastArg
      modifies m_argv, `m_nLastArg
      ensures m_argv[..] == Rotated(old(m_argv[..]), start, count)
      ensures m_nLastArg == old(m_nLastArg) - count
    {
      var buf := m_argv[start..start + count];
      var nTail := m_argv.Length - start - count;
      ghost var before := m_argv[..];
      CopyDown(start, start + count, nTail);
      ghost var moved := m_argv[..];
      CopyFrom(start + nTail, buf);
      m_nLastArg := m_nLastArg - count;
      assert m_argv[..] == m_argv[..start + nTail] + m_argv[start + nTail..];
      assert moved[..start + nTail] == before[..start] + before[start + count..];
    }

    /** n elements move from `from` down to `to`, lowest first. */
    method CopyDown(to: nat, from: nat, n: nat)
      requires to <= from && from + n == m_argv.Length
      modifies m_argv
      ensures m_argv[..to + n] == old(m_argv[..to]) + old(m_argv[from..])
    {
      for i := 0 to n
        invariant forall k :: 0 <= k < to ==> m_argv[k] == old(m_argv[k])
        invariant forall k :: to <= k < to + i ==> m_argv[k] == old(m_argv[k + (from - to)])
        invariant forall k :: from + i <= k < m_argv.Length ==> m_argv[k] == old(m_argv[k])
      {
        m_argv[to + i] := m_argv[from + i];
      }
    }

    method CopyFrom(to: nat, buf: seq<nat>)
      requires to + |buf| == m_argv.Length
      modifies m_argv
      ensures m_argv[..to] == old(m_argv[..to]) && m_argv[to..] == buf
    {
      for i := 0 to |buf|
        invariant forall k :: 0 <= k < to ==> m_argv[k] == old(m_argv[k])
        invariant forall k :: 0 <= k < i ==> m_argv[to + k] == buf[k]
      {
        m_argv[to + i] := buf[i];
      }
    }

    /** The first argument from m_nOptionIdx on that is not data. */
    method Search() returns (nOptIdx: nat, k: Kind)
      requires Valid() && m_nOptionIdx == m_nNextOption
      ensures m_nOptionIdx <= nOptIdx <= m_nLastArg && |Ahead()| == m_nLastArg - m_nOptionIdx
      ensures forall i :: 0 <= i < nOptIdx - m_nOptionIdx ==> KindOf(m_rgOptions, m_nFlags, Ahead()[i]) == IsData
      ensures nOptIdx < m_nLastArg ==>
              m_argv[nOptIdx] < |text| && text[m_argv[nOptIdx]] == Ahead()[nOptIdx - m_nOptionIdx]
      ensures nOptIdx < m_nLastArg ==> k == KindOf(m_rgOptions, m_nFlags, text[m_argv[nOptIdx]]) && k != IsData
    {
      hide KindOf, Arranged;
      ArrangedBounds(m_argv[..], orig, roles, m_nNextOption, m_nLastArg);
      PointersAhead(m_argv[..], text, orig, roles, m_nNextOption, m_nLastArg);
      ghost var args := Ahead();
      k := IsData;
      nOptIdx := m_nOptionIdx;
      while nOptIdx < m_nLastArg
        invariant m_nOptionIdx <= nOptIdx <= m_nLastArg
        invariant forall i :: 0 <= i < nOptIdx - m_nOptionIdx ==> KindOf(m_rgOptions, m_nFlags, args[i]) == IsData
      {
        assert m_argv[nOptIdx] == m_argv[..][nOptIdx];
        k := Classify(m_rgOptions, m_nFlags, text[m_argv[nOptIdx]]);
        if k != IsData {
          return;
        }
        nOptIdx := nOptIdx + 1;
      }
    }

    /** The data before nOptIdx goes to the end, and the argument there is taken. */
    method TakeOption(nOptIdx: nat)
      requires Valid() && m_nOptionIdx == m_nNextOption <= nOptIdx < m_nLastArg
      modifies m_argv, `m_nLastArg, `m_nNextOption, `roles
      ensures Valid() && m_nNextOption == old(m_nNextOption) + 1
      ensures m_nLastArg - m_nNextOption < old(m_nLastArg - m_nNextOption)
      ensures roles == old(roles) + Files(nOptIdx - m_nOptionIdx) + [Option]
    {
      hide Arranged;
      ghost var argv := m_argv[..];
      ghost var count := nOptIdx - m_nOptionIdx;
      ArrangedBounds(argv, orig, roles, m_nNextOption, m_nLastArg);
      SkippedAndTaken(argv, orig, roles, m_nNextOption, m_nLastArg, count);
      m_nNextOption := m_nNextOption + 1;
      if nOptIdx > m_nOptionIdx {
        ShuffleArg(m_nOptionIdx, nOptIdx - m_nOptionIdx);
      } else {
        assert Rotated(argv, m_nOptionIdx, 0) == argv;
      }
      roles := roles + Files(count) + [Option];
    }

    /** MultiArg: the next arguments become the option's, all of them or none. */
    method MultiArg(nCount: nat) returns (ok: bool)
      requires Valid()
      modifies `m_nNextOption, `m_nLastError, `roles
      ensures Valid()
      ensures ok == (nCount <= |old(Ahead())| && forall i :: 0 <= i < nCount ==> CanBeArg(m_nFlags, old(Ahead())[i]))
      ensures ok ==> m_nNextOption == old(m_nNextOption) + nCount && roles == old(roles) + Separates(nCount)
      ensures ok ==> m_nLastError == old(m_nLastError)
      ensures ok ==> forall i :: old(m_nNextOption) <= i < m_nNextOption ==>
                       m_argv[i] < |text| && text[m_argv[i]] == old(Ahead())[i - old(m_nNextOption)]
      ensures !ok ==> m_nNextOption == old(m_nNextOption) && roles == old(roles)
      ensures !ok ==> m_nLastError == if nCount > |old(Ahead())| then SO_ARG_MISSING else SO_ARG_INVALID_DATA
    {
      hide Arranged;
      ArrangedBounds(m_argv[..], orig, roles, m_nNextOption, m_nLastArg);
      if m_nNextOption + nCount > m_nLastArg {
        m_nLastError := SO_ARG_MISSING;
        return false;
      }
      PointersAhead(m_argv[..], text, orig, roles, m_nNextOption, m_nLastArg);
      if !m_nFlags.noerr {
        for n := 0 to nCount
          invariant forall i :: 0 <= i < n ==> CanBeArg(m_nFlags, Ahead()[i])
        {
          assert m_argv[m_nNextOption + n] == m_argv[..][m_nNextOption + n];
          var arg := text[m_argv[m_nNextOption + n]];
          if arg != [] && arg[0] == '-' {
            m_nLastError := SO_ARG_INVALID_DATA;
            return false;
          }
        }
      }
      TakenAsArguments(m_argv[..], orig, roles, m_nNextOption, m_nLastArg, nCount);
      m_nNextOption := m_nNextOption + nCount;
      roles := roles + Separates(nCount);
      ok := true;
    }

    /** An option or an error is reported, with the argument behind it if it takes that. */
    method Report(k: Kind, s: string)
      requires Valid() && m_nLastError == SO_SUCCESS && m_nOptionId == -1
      requires k == KindOf(m_rgOptions, m_nFlags, s) && (k.IsOption? || k.IsError?)
      modifies `m_nOptionId, `m_pszOptionText, `m_pszOptionArg, `m_nLastError, `m_nNextOption, `roles
      ensures Valid()
      ensures FirstEvents(m_rgOptions, m_nFlags, [s] + old(Ahead())) == [Reported()]
      ensures var n := if Takes(m_rgOptions, m_nFlags, [s] + old(Ahead())) then 1 else 0;
              m_nNextOption == old(m_nNextOption) + n && roles == old(roles) + Separates(n)
    {
      hide KindOf, Arranged;
      ArrangedBounds(m_argv[..], orig, roles, m_nNextOption, m_nLastArg);
      ghost var ahead := Ahead();
      ghost var args := [s] + ahead;
      assert ahead != [] ==> args[1] == ahead[0];
      if k.IsError? {
        m_pszOptionText, m_pszOptionArg, m_nLastError := Name(s), Combined(s), k.error;
        return;
      }
      var o := m_rgOptions[k.n];
      m_nOptionId, m_pszOptionText, m_pszOptionArg := o.nId, o.pszArg, k.arg;
      match o.nArgType {
        case SO_NONE => m_nLastError := if k.arg.Arg? then SO_ARG_INVALID else SO_SUCCESS;
        case SO_REQ_SEP => m_nLastError := if k.arg.Arg? && m_nFlags.pedantic then SO_ARG_INVALID_TYPE else SO_SUCCESS;
        case SO_REQ_CMB => m_nLastError := if k.arg.Arg? then SO_SUCCESS else SO_ARG_MISSING;
        case _ =>
      }
      if o.nArgType == SO_REQ_SEP && m_pszOptionArg == NoArg && m_nLastError == SO_SUCCESS {
        var first := m_nNextOption;
        var ok := MultiArg(1);
        if ok {
          m_pszOptionArg := Arg(text[m_argv[first]]);
        }
      }
    }

    /** One option of a clump; only an exact short name counts. */
    method NextClumped() returns (valid: bool)
      requires m_pszClump != []
      modifies `m_pszClump, `m_nOptionId, `m_pszOptionText, `m_pszOptionArg, `m_nLastError
      ensures |m_pszClump| < |old(m_pszClump)|
      ensures ClumpEvents(m_rgOptions, m_nFlags.noerr, old(m_pszClump))
              == (if valid || !m_nFlags.noerr then [Reported()] else [])
                 + ClumpEvents(m_rgOptions, m_nFlags.noerr, m_pszClump)
    {
      hide LooksUp;
      var short := ['-', m_pszClump[0]];
      m_pszClump := m_pszClump[1..];
      m_nOptionId, m_pszOptionText, m_pszOptionArg, m_nLastError := -1, [], NoArg, SO_SUCCESS;
      var nTableIdx := LookupOption(m_rgOptions, EXACT_ONLY, short);
      LookupIsUnique(m_rgOptions, EXACT_ONLY, short, nTableIdx, LookupOf(m_rgOptions, EXACT_ONLY, short));
      if nTableIdx.NotFound? {
        m_nLastError := nTableIdx.error;
        return false;
      }
      var o := m_rgOptions[nTableIdx.n];
      m_pszOptionText := o.pszArg;
      if o.nArgType == SO_NONE {
        m_nOptionId := o.nId;
        return true;
      }
      if o.nArgType == SO_REQ_CMB && m_pszClump != [] {
        m_nOptionId := o.nId;
        m_pszOptionArg := Arg(m_pszClump);
        m_pszClump := [];
        return true;
      }
      m_nLastError := SO_ARG_MISSING;
      return true;
    }

    /** The part of Next that finishes a clump: true if there is something to return. */
    method FinishClump() returns (found: bool)
      modifies `m_pszClump, `m_nOptionId, `m_pszOptionText, `m_pszOptionArg, `m_nLastError
      ensures found ==> |m_pszClump| < |old(m_pszClump)|
      ensures found ==> ClumpEvents(m_rgOptions, m_nFlags.noerr, old(m_pszClump))
                        == [Reported()] + ClumpEvents(m_rgOptions, m_nFlags.noerr, m_pszClump)
      ensures !found ==> m_pszClump == []
      ensures !found ==> ClumpEvents(m_rgOptions, m_nFlags.noerr, old(m_pszClump)) == []
      ensures !found ==> ClumpEvents(m_rgOptions, m_nFlags.noerr, []) == []
    {
      if m_pszClump == [] {
        return false;
      }
      var bIsValid := NextClumped();
      while m_pszClump != [] && !bIsValid && m_nFlags.noerr
        invariant |m_pszClump| < |old(m_pszClump)|
        invariant ClumpEvents(m_rgOptions, m_nFlags.noerr, old(m_pszClump))
                  == (if bIsValid || !m_nFlags.noerr then [Reported()] else [])
                     + ClumpEvents(m_rgOptions, m_nFlags.noerr, m_pszClump)
        decreases |m_pszClump|
      {
        bIsValid := NextClumped();
      }
      found := bIsValid || !m_nFlags.noerr;
      if !found {
        m_pszClump := [];
      }
    }

    /** How much is still to be read. */
    function Rest(): int
      reads this
    {
      m_nLastArg - m_nNextOption
    }

    /** Next: reports the first of what is to be reported, or nothing when only files are left. */
    method Next() returns (r: bool)
      requires Valid()
      modifies this, m_argv
      ensures Valid() && AllRoles() == old(AllRoles())
      ensures r ==> old(Pending()) == [Reported()] + Pending()
      ensures r ==> Rest() < old(Rest()) || (Rest() == old(Rest()) && |m_pszClump| < |old(m_pszClump)|)
      ensures !r ==> old(Pending()) == [] == Pending() && m_nNextOption == m_nLastArg
      decreases m_nLastArg - m_nNextOption
    {
      hide KindOf, Arranged, Parse, RolesOf, ClumpEvents;
      ArrangedBounds(m_argv[..], orig, roles, m_nNextOption, m_nLastArg);
      ghost var events := Parse(m_rgOptions, m_nFlags, Ahead());
      r := FinishClump();
      if r {
        assert ([Reported()] + ClumpEvents(m_rgOptions, m_nFlags.noerr, m_pszClump)) + events
          == [Reported()] + Pending();
        return;
      }
      m_nOptionIdx := m_nNextOption;
      m_nOptionId, m_pszOptionText, m_pszOptionArg, m_nLastError := -1, [], NoArg, SO_SUCCESS;
      var nOptIdx, k := Search();
      if nOptIdx >= m_nLastArg {
        OnlyFiles();
        return false;
      }
      r := TakeAndReport(nOptIdx, k);
      if !r {
        r := Next();
      }
    }

    /** The argument that was found is taken; an option or an error is reported, a clump is opened. */
    method TakeAndReport(nOptIdx: nat, k: Kind) returns (r: bool)
      requires Valid() && m_nOptionIdx == m_nNextOption <= nOptIdx < m_nLastArg
               && |Ahead()| == m_nLastArg - m_nOptionIdx
      requires m_nLastError == SO_SUCCESS && m_nOptionId == -1 && m_pszClump == []
      requires forall i :: 0 <= i < nOptIdx - m_nOptionIdx ==> KindOf(m_rgOptions, m_nFlags, Ahead()[i]) == IsData
      requires m_argv[nOptIdx] < |text| && text[m_argv[nOptIdx]] == Ahead()[nOptIdx - m_nOptionIdx]
      requires k == KindOf(m_rgOptions, m_nFlags, text[m_argv[nOptIdx]]) && k != IsData
      modifies this, m_argv
      ensures Valid() && AllRoles() == old(AllRoles()) && Rest() < old(Rest())
      ensures r ==> m_pszClump == []
      ensures Parse(m_rgOptions, m_nFlags, old(Ahead()))
              == (if r then [Reported()] else ClumpEvents(m_rgOptions, m_nFlags.noerr, m_pszClump))
                 + Parse(m_rgOptions, m_nFlags, Ahead())
    {
      hide KindOf, Arranged, Parse, RolesOf, ClumpEvents, FirstEvents, Takes, Pick, Texts;
      ArrangedBounds(m_argv[..], orig, roles, m_nNextOption, m_nLastArg);
      var s := text[m_argv[nOptIdx]];
      ghost var args := Ahead();
      ghost var n := nOptIdx - m_nOptionIdx;
      ghost var c := |roles|;
      Unfold(m_rgOptions, m_nFlags, text, orig, c, n);
      TakeOption(nOptIdx);
      ArrangedBounds(m_argv[..], orig, roles, m_nNextOption, m_nLastArg);
      if k == IsClump {
        ClumpIsFirst(m_rgOptions, m_nFlags, [s] + Ahead());
        m_pszClump := s[1..];
        return false;
      }
      Report(k, s);
      ArrangedBounds(m_argv[..], orig, roles, m_nNextOption, m_nLastArg);
      r := true;
    }

    /** The end of the search: what is left is data and goes to the end. */
    method OnlyFiles()
      requires Valid() && m_nOptionIdx == m_nNextOption
      modifies m_argv, `m_nLastArg, `roles
      requires forall i :: 0 <= i < |Ahead()| ==> KindOf(m_rgOptions, m_nFlags, Ahead()[i]) == IsData
      ensures Valid() && m_nNextOption == m_nLastArg && roles == old(AllRoles()) == AllRoles()
      ensures Parse(m_rgOptions, m_nFlags, old(Ahead())) == [] == Parse(m_rgOptions, m_nFlags, Ahead())
    {
      hide Arranged, KindOf, Parse, RolesOf;
      ghost var argv := m_argv[..];
      ArrangedBounds(argv, orig, roles, m_nNextOption, m_nLastArg);
      AllData(m_rgOptions, m_nFlags, Ahead());
      SkippedToTheEnd(argv, orig, roles, m_nNextOption, m_nLastArg);
      roles := roles + Files(m_nLastArg - m_nOptionIdx);
      if m_nLastArg > m_nOptionIdx {
        ShuffleArg(m_nOptionIdx, m_nLastArg - m_nOptionIdx);
      } else {
        assert Rotated(argv, m_nOptionIdx, 0) == argv;
      }
      ArrangedBounds(m_argv[..], orig, roles, m_nNextOption, m_nLastArg);
      assert Ahead() == [];
    }

    /** Calling Next until it is done reports what the parser that moves nothing reports; argv then holds the
        options with their arguments first and the files last, each in their original order. */
    method ParseAll() returns (events: seq<Event>)
      requires Valid()
      modifies this, m_argv
      ensures Valid() && m_nNextOption == m_nLastArg
      ensures events == old(Pending()) && roles == old(AllRoles()) && |roles| == |orig|
      ensures multiset(m_argv[..]) == multiset(orig)
      ensures m_argv[..] == Pick(orig, roles, false) + Pick(orig, roles, true)
      ensures m_argv[m_nLastArg..] == Pick(orig, roles, true)
    {
      hide KindOf, Arranged, Parse, ClumpEvents, FirstEvents;
      events := [];
      ArrangedBounds(m_argv[..], orig, roles, m_nNextOption, m_nLastArg);
      var more := true;
      while more
        invariant Valid() && |roles| <= |orig|
        invariant old(Pending()) == events + Pending() && AllRoles() == old(AllRoles())
        invariant !more ==> m_nNextOption == m_nLastArg && Pending() == []
        decreases more, Rest(), |m_pszClump|
      {
        ArrangedBounds(m_argv[..], orig, roles, m_nNextOption, m_nLastArg);
        more := Next();
        if more {
          events := events + [Reported()];
        }
        ArrangedBounds(m_argv[..], orig, roles, m_nNextOption, m_nLastArg);
      }
      ArrangedPermutes(m_argv[..], orig, roles, m_nNextOption, m_nLastArg);
      ArrangedAtEnd(m_argv[..], orig, roles, m_nLastArg);
    }
  }

  /** A whole command line, from the constructor on. */
  method ParseCommandLine(argv: array<nat>, text: seq<string>, options: seq<OptionSpec>, flags: Flags)
    returns (events: seq<Event>, files: seq<nat>)
    requires argv.Length > 0 && forall i :: 0 <= i < argv.Length ==> argv[i] < |text|
    modifies argv
    ensures var first := if flags.useall then [] else [Program];
            var args := Texts(text, old(argv[..]))[|first|..];
            var roles := first + RolesOf(options, flags, args);
            && events == Parse(options, flags, args)
            && files == Pick(old(argv[..]), roles, true)
            && argv[..] == Pick(old(argv[..]), roles, false) + files
            && multiset(argv[..]) == multiset(old(argv[..]))
  {
    hide KindOf, Parse, RolesOf, Pick;
    var args := new CSimpleOpt(argv, text, options, flags);
    assert args.Ahead() == Texts(text, argv[..])[|args.roles|..];
    events := args.ParseAll();
    files := argv[args.m_nLastArg..];
  }

  function Separates(n: nat): (r: seq<Role>)
    ensures |r| == n && forall i :: 0 <= i < n ==> r[i] == Separate
  {
    seq(n, i => Separate)
  }

  lemma FirstOfRest(options: seq<OptionSpec>, flags: Flags, rest: seq<string>)
    requires rest != [] && KindOf(options, flags, rest[0]) != IsData
    ensures var n := if Takes(options, flags, rest) then 1 else 0;
            && Parse(options, flags, rest) == FirstEvents(options, flags, rest) + Parse(options, flags, rest[1 + n..])
            && RolesOf(options, flags, rest) == [Option] + Separates(n) + RolesOf(options, flags, rest[1 + n..])
  {
    hide KindOf, FirstEvents;
  }

  lemma TextsBehind(text: seq<string>, orig: seq<nat>, c: nat, n: nat)
    requires c + n <= |orig| && forall i :: 0 <= i < |orig| ==> orig[i] < |text|
    ensures Texts(text, orig[c..])[n..] == Texts(text, orig[c + n..])
  {
  }

  lemma ClumpIsFirst(options: seq<OptionSpec>, flags: Flags, args: seq<string>)
    requires args != [] && KindOf(options, flags, args[0]) == IsClump
    ensures FirstEvents(options, flags, args) == ClumpEvents(options, flags.noerr, args[0][1..])
    ensures !Takes(options, flags, args)
  {
    hide KindOf;
  }

  lemma AllData(options: seq<OptionSpec>, flags: Flags, args: seq<string>)
    requires forall i :: 0 <= i < |args| ==> KindOf(options, flags, args[i]) == IsData
    ensures Parse(options, flags, args) == [] == Parse(options, flags, [])
    ensures RolesOf(options, flags, args) == Files(|args|) && RolesOf(options, flags, []) == []
  {
    hide KindOf;
    SkipData(options, flags, args, |args|);
  }

  /** Past the data behind the first c arguments: the next argument, and the one behind it if it is taken. */
  lemma Unfold(options: seq<OptionSpec>, flags: Flags, text: seq<string>, orig: seq<nat>, c: nat, count: nat)
    requires c + count < |orig| && forall i :: 0 <= i < |orig| ==> orig[i] < |text|
    requires forall i :: 0 <= i < count ==> KindOf(options, flags, Texts(text, orig[c..])[i]) == IsData
    requires KindOf(options, flags, Texts(text, orig[c..])[count]) != IsData
    ensures var args := Texts(text, orig[c..]);
            var rest := [args[count]] + Texts(text, orig[c + count + 1..]);
            var n := if Takes(options, flags, rest) then 1 else 0;
            && c + count + 1 + n <= |orig|
            && Parse(options, flags, args)
               == FirstEvents(options, flags, rest) + Parse(options, flags, Texts(text, orig[c + count + 1 + n..]))
            && RolesOf(options, flags, args)
               == Files(count) + [Option] + Separates(n) + RolesOf(options, flags,
                                                                   Texts(text, orig[c + count + 1 + n..]))
  {
    hide KindOf, FirstEvents, Parse, RolesOf, WantsSeparate, CanBeArg;
    var args := Texts(text, orig[c..]);
    var rest := [args[count]] + Texts(text, orig[c + count + 1..]);
    SkipData(options, flags, args, count);
    FirstOfRest(options, flags, args[count..]);
    TextsBehind(text, orig, c, count);
    assert args[count..] == rest;
    TextsBehind(text, orig, c + count, 1);
    if Takes(options, flags, rest) {
      TextsBehind(text, orig, c + count, 2);
    }
  }

  lemma ArrangedAtEnd(argv: seq<nat>, orig: seq<nat>, roles: seq<Role>, last: nat)
    requires Arranged(argv, orig, roles, last, last)
    ensures |roles| == |orig| && argv == Pick(orig, roles, false) + Pick(orig, roles, true)
    ensures argv[last..] == Pick(orig, roles, true)
  {
    assert orig[..|orig|] == orig;
    assert argv == argv[..last] + argv[last..];
  }

  lemma FirstArranged(argv: seq<nat>, useall: bool)
    requires argv != []
    ensures Arranged(argv, argv, if useall then [] else [Program], if useall then 0 else 1, |argv|)
  {
    if useall {
      assert argv[..0] == [] && argv[|argv|..] == [];
    } else {
      assert argv[..1][..0] == [] && [Program][..0] == [];
      assert Pick(argv[..1], [Program], false) == [argv[0]] == argv[..1];
    }
  }

  lemma PointersAhead(argv: seq<nat>, text: seq<string>, orig: seq<nat>, roles: seq<Role>, next: nat, last: nat)
    requires Arranged(argv, orig, roles, next, last) && forall i :: 0 <= i < |orig| ==> orig[i] < |text|
    ensures var ahead := Texts(text, orig[|roles|..]);
            |ahead| == last - next && forall i :: next <= i < last ==>
              argv[i] < |text| && text[argv[i]] == ahead[i - next]
  {
    forall i | next <= i < last ensures argv[i] == orig[|roles|..][i - next] {
      assert argv[i] == argv[next..last][i - next];
    }
  }

  lemma ArrangedBounds(argv: seq<nat>, orig: seq<nat>, roles: seq<Role>, next: nat, last: nat)
    requires Arranged(argv, orig, roles, next, last)
    ensures next <= last <= |argv| == |orig| && |roles| == |orig| - (last - next)
  {
  }

}
