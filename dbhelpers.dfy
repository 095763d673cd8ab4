/** `DbHelpers`: Dapper-style extension methods over an ADO.NET connection.
    Modelled here: the column-to-property mapping (exact name first, then the
    snake_case column in PascalCase, both compared ignoring case), the command
    type guess, the parameter naming and output rules, the output-parameter
    reads, and `Execute`'s open/close discipline. Case conversion is ASCII. */
module DapperHelpers {
  import opened Kernel

  // ----- ASCII case -----

  function ToUpper(c: char): (u: char)
  {
    if 'a' <= c <= 'z' then (c as int - 32) as char else c
  }

  function ToLower(c: char): (l: char)
  {
    if 'A' <= c <= 'Z' then (c as int + 32) as char else c
  }

  function Lowered(s: string): (r: string)
    ensures |r| == |s| && forall i :: 0 <= i < |s| ==> r[i] == ToLower(s[i])
  {
    seq(|s|, i requires 0 <= i < |s| => ToLower(s[i]))
  }

  /** `string.Equals(a, b, StringComparison.OrdinalIgnoreCase)` */
  predicate EqualsIgnoreCase(a: string, b: string)
  {
    Lowered(a) == Lowered(b)
  }

  /** `s.StartsWith(prefix, StringComparison.OrdinalIgnoreCase)` */
  predicate StartsWithIgnoreCase(s: string, prefix: string)
  {
    |prefix| <= |s| && EqualsIgnoreCase(s[..|prefix|], prefix)
  }

  lemma LoweredAppend(a: string, b: string)
    ensures Lowered(a + b) == Lowered(a) + Lowered(b)
  {
  }

  // ----- ToPascalCase -----

  /** The length of the run of non-underscore characters `s` starts with. */
  function RunLength(s: string): (n: nat)
    ensures n <= |s|
    ensures forall i :: 0 <= i < n ==> s[i] != '_'
    ensures n < |s| ==> s[n] == '_'
    ensures s != [] && s[0] != '_' ==> n >= 1
  {
    if s == [] || s[0] == '_' then 0
    else
      var n := 1 + RunLength(s[1..]);
      assert forall i :: 1 <= i < |s| ==> s[i] == s[1..][i - 1];
      n
  }

  /** `s.Split('_', StringSplitOptions.RemoveEmptyEntries)` */
  function Parts(s: string): (ps: seq<string>)
    decreases |s|
    ensures forall k :: 0 <= k < |ps| ==> ps[k] != [] && '_' !in ps[k]
  {
    if s == [] then []
    else if s[0] == '_' then Parts(s[1..])
    else
      var n := RunLength(s);
      [s[..n]] + Parts(s[n..])
  }

  function RemoveUnderscores(s: string): (r: string)
    ensures '_' !in r
  {
    if s == [] then [] else (if s[0] == '_' then [] else [s[0]]) + RemoveUnderscores(s[1..])
  }

  function Concat(ps: seq<string>): string
  {
    if ps == [] then [] else ps[0] + Concat(ps[1..])
  }

  /** `p.Substring(0, 1).ToUpper() + p.Substring(1).ToLower()` */
  function Capitalize(p: string): string
    requires p != []
  {
    [ToUpper(p[0])] + Lowered(p[1..])
  }

  /** `string.Join("", parts.Select(Capitalize))` */
  function JoinCapitalized(ps: seq<string>): string
    requires forall k :: 0 <= k < |ps| ==> ps[k] != []
  {
    if ps == [] then [] else Capitalize(ps[0]) + JoinCapitalized(ps[1..])
  }

  /** `ToPascalCase`: the empty string unchanged; otherwise each
      underscore-separated piece capitalised, pieces joined. The result has
      no underscore, and ignoring case it is the input with its underscores
      removed: only the letter case of the pieces changes. */
  function ToPascalCase(s: string): (r: string)
    ensures '_' !in r
    ensures EqualsIgnoreCase(r, RemoveUnderscores(s))
  {
    if s == [] then s
    else
      JoinCapitalizedPlain(Parts(s));
      JoinCapitalizedIgnoringCase(Parts(s));
      PartsConcat(s);
      JoinCapitalized(Parts(s))
  }

  lemma {:induction false} RemoveUnderscoresAppend(a: string, b: string)
    ensures RemoveUnderscores(a + b) == RemoveUnderscores(a) + RemoveUnderscores(b)
    decreases |a|
  {
    if a != [] {
      assert (a + b)[1..] == a[1..] + b;
      RemoveUnderscoresAppend(a[1..], b);
    } else {
      assert a + b == b;
    }
  }

  lemma {:induction false} RemoveUnderscoresOfPlain(a: string)
    requires '_' !in a
    ensures RemoveUnderscores(a) == a
    decreases |a|
  {
    if a != [] {
      RemoveUnderscoresOfPlain(a[1..]);
    }
  }

  /** The pieces, put back together, are the input without its underscores. */
  lemma {:induction false} PartsConcat(s: string)
    ensures Concat(Parts(s)) == RemoveUnderscores(s)
    decreases |s|
  {
    if s != [] {
      if s[0] == '_' {
        PartsConcat(s[1..]);
      } else {
        var n := RunLength(s);
        PartsConcat(s[n..]);
        assert s == s[..n] + s[n..];
        RemoveUnderscoresAppend(s[..n], s[n..]);
        RemoveUnderscoresOfPlain(s[..n]);
        assert Parts(s)[1..] == Parts(s[n..]);
      }
    }
  }

  lemma {:induction false} JoinCapitalizedIgnoringCase(ps: seq<string>)
    requires forall k :: 0 <= k < |ps| ==> ps[k] != []
    ensures Lowered(JoinCapitalized(ps)) == Lowered(Concat(ps))
    decreases |ps|
  {
    if ps != [] {
      JoinCapitalizedIgnoringCase(ps[1..]);
      LoweredAppend(Capitalize(ps[0]), JoinCapitalized(ps[1..]));
      LoweredAppend(ps[0], Concat(ps[1..]));
      assert Lowered(Capitalize(ps[0])) == Lowered(ps[0]);
    }
  }

  lemma {:induction false} JoinCapitalizedPlain(ps: seq<string>)
    requires forall k :: 0 <= k < |ps| ==> ps[k] != [] && '_' !in ps[k]
    ensures '_' !in JoinCapitalized(ps)
    decreases |ps|
  {
    if ps != [] {
      JoinCapitalizedPlain(ps[1..]);
      assert forall i :: 0 <= i < |ps[0]| ==> ps[0][i] != '_';
    }
  }

  // ----- BuildPropertyMap -----

  /** The first property, from index `i` on, named `name` ignoring case. */
  function FirstNamed(props: seq<string>, name: string, i: nat): (r: Option<nat>)
    requires i <= |props|
    decreases |props| - i
    ensures r.Some? ==> i <= r.value < |props| && EqualsIgnoreCase(props[r.value], name)
                        && forall j :: i <= j < r.value ==> !EqualsIgnoreCase(props[j], name)
    ensures r.None? ==> forall j :: i <= j < |props| ==> !EqualsIgnoreCase(props[j], name)
  {
    if i == |props| then None
    else if EqualsIgnoreCase(props[i], name) then Some(i)
    else FirstNamed(props, name, i + 1)
  }

  /** The property a column maps to: the exact name first, then the
      PascalCase form. */
  function Resolve(props: seq<string>, column: string): (r: Option<nat>)
    ensures r.Some? ==> r.value < |props|
    ensures FirstNamed(props, column, 0).None? ==> r == FirstNamed(props, ToPascalCase(column), 0)
  {
    var exact := FirstNamed(props, column, 0);
    if exact.Some? then exact else FirstNamed(props, ToPascalCase(column), 0)
  }

  /** A column maps to a property exactly when some property is named like
      the column, or like the column without its underscores, ignoring case;
      an exact match always wins. */
  lemma ResolveMeaning(props: seq<string>, column: string)
    ensures Resolve(props, column).Some? <==>
              exists j :: 0 <= j < |props| &&
                (EqualsIgnoreCase(props[j], column) || EqualsIgnoreCase(props[j], RemoveUnderscores(column)))
    ensures (exists j :: 0 <= j < |props| && EqualsIgnoreCase(props[j], column)) ==>
              Resolve(props, column) == FirstNamed(props, column, 0)
    ensures Resolve(props, column).Some? ==>
              var p := props[Resolve(props, column).value];
              EqualsIgnoreCase(p, column) || EqualsIgnoreCase(p, RemoveUnderscores(column))
  {
  }

  lemma {:induction false} FirstNamedIgnoresCase(props: seq<string>, a: string, b: string, i: nat)
    requires i <= |props| && Lowered(a) == Lowered(b)
    ensures FirstNamed(props, a, i) == FirstNamed(props, b, i)
    decreases |props| - i
  {
    if i < |props| {
      FirstNamedIgnoresCase(props, a, b, i + 1);
    }
  }

  lemma {:induction false} LoweredRemoveUnderscores(s: string)
    ensures Lowered(RemoveUnderscores(s)) == RemoveUnderscores(Lowered(s))
    decreases |s|
  {
    if s != [] {
      LoweredRemoveUnderscores(s[1..]);
      assert Lowered(s)[1..] == Lowered(s[1..]);
      LoweredAppend(if s[0] == '_' then [] else [s[0]], RemoveUnderscores(s[1..]));
    }
  }

  /** Columns that differ only in letter case map to the same property. */
  lemma ResolveIgnoresCase(props: seq<string>, a: string, b: string)
    requires EqualsIgnoreCase(a, b)
    ensures Resolve(props, a) == Resolve(props, b)
  {
    FirstNamedIgnoresCase(props, a, b, 0);
    LoweredRemoveUnderscores(a);
    LoweredRemoveUnderscores(b);
    FirstNamedIgnoresCase(props, ToPascalCase(a), ToPascalCase(b), 0);
  }

  /** The map `BuildPropertyMap` builds, keyed case-insensitively (by the
      lower-cased column name), holding property indices. */
  function PropertyMap(props: seq<string>, columns: seq<string>): (m: map<string, nat>)
    ensures forall k :: k in m ==> m[k] < |props|
  {
    if columns == [] then map[]
    else
      var m := PropertyMap(props, columns[..|columns| - 1]);
      var column := columns[|columns| - 1];
      match Resolve(props, column)
      case None => m
      case Some(p) => m[Lowered(column) := p]
  }

  /** Every column with a match is in the map with its match, a column
      without one is absent, and nothing else is in the map. */
  lemma {:induction false} PropertyMapContents(props: seq<string>, columns: seq<string>)
    ensures var m := PropertyMap(props, columns);
            && (forall c :: c in columns ==> (Lowered(c) in m <==> Resolve(props, c).Some?))
            && (forall c :: c in columns && Lowered(c) in m ==> m[Lowered(c)] == Resolve(props, c).value)
            && (forall k :: k in m ==> exists c :: c in columns && Lowered(c) == k)
    decreases |columns|
  {
    if columns != [] {
      var init := columns[..|columns| - 1];
      var last := columns[|columns| - 1];
      PropertyMapContents(props, init);
      assert columns == init + [last];
      forall c | c in columns && Lowered(c) == Lowered(last)
        ensures Resolve(props, c) == Resolve(props, last)
      {
        ResolveIgnoresCase(props, c, last);
      }
    }
  }

  // ----- Command type -----

  datatype CommandType = Text | StoredProcedure | TableDirect

  function TrimStart(s: string): (r: string)
    ensures |r| <= |s| && r == s[|s| - |r|..]
    ensures r != [] ==> !IsWhiteSpace(r[0])
  {
    if s != [] && IsWhiteSpace(s[0]) then TrimStart(s[1..]) else s
  }

  function TrimEnd(s: string): (r: string)
    ensures |r| <= |s| && r == s[..|r|]
    ensures r != [] ==> !IsWhiteSpace(r[|r| - 1])
  {
    if s != [] && IsWhiteSpace(s[|s| - 1]) then TrimEnd(s[..|s| - 1]) else s
  }

  /** `string.Trim()`: what is left is a piece of the input with no white
      space at either end. */
  function Trim(s: string): (r: string)
    ensures |r| <= |s|
    ensures r != [] ==> !IsWhiteSpace(r[0]) && !IsWhiteSpace(r[|r| - 1])
  {
    var a := TrimStart(s);
    var t := TrimEnd(a);
    assert t != [] ==> t[0] == a[0];
    t
  }

  /** The command type used: the explicit one, or a guess from the text. */
  function ChooseCommandType(sqlOrProcedure: string, commandType: Option<CommandType>): (t: CommandType)
    ensures commandType.Some? ==> t == commandType.value
    ensures commandType.None? ==> (t == Text <==> ' ' in Trim(sqlOrProcedure)) && t != TableDirect
  {
    if commandType.None? then
      if ' ' in Trim(sqlOrProcedure) then Text else StoredProcedure
    else commandType.value
  }

  /** A space with a non-white-space character somewhere before it and
      somewhere after it. */
  ghost predicate HasInnerSpace(s: string)
  {
    exists i, j, k :: SpaceBetween(s, i, j, k)
  }

  predicate SpaceBetween(s: string, i: int, j: int, k: int)
  {
    0 <= i < j < k < |s| && !IsWhiteSpace(s[i]) && s[j] == ' ' && !IsWhiteSpace(s[k])
  }

  lemma DropLeadingWhiteSpace(s: string)
    requires s != [] && IsWhiteSpace(s[0])
    ensures HasInnerSpace(s) <==> HasInnerSpace(s[1..])
  {
    var t := s[1..];
    if HasInnerSpace(s) {
      var i, j, k :| SpaceBetween(s, i, j, k);
      assert SpaceBetween(t, i - 1, j - 1, k - 1);
    }
    if HasInnerSpace(t) {
      var i, j, k :| SpaceBetween(t, i, j, k);
      assert SpaceBetween(s, i + 1, j + 1, k + 1);
    }
  }

  lemma DropTrailingWhiteSpace(s: string)
    requires s != [] && IsWhiteSpace(s[|s| - 1])
    ensures HasInnerSpace(s) <==> HasInnerSpace(s[..|s| - 1])
  {
    var t := s[..|s| - 1];
    if HasInnerSpace(s) {
      var i, j, k :| SpaceBetween(s, i, j, k);
      assert SpaceBetween(t, i, j, k);
    }
    if HasInnerSpace(t) {
      var i, j, k :| SpaceBetween(t, i, j, k);
      assert SpaceBetween(s, i, j, k);
    }
  }

  lemma {:induction false} TrimStartKeepsInnerSpace(s: string)
    ensures HasInnerSpace(TrimStart(s)) <==> HasInnerSpace(s)
    ensures TrimStart(s) != [] ==> !IsWhiteSpace(TrimStart(s)[0])
    decreases |s|
  {
    if s != [] && IsWhiteSpace(s[0]) {
      TrimStartKeepsInnerSpace(s[1..]);
      DropLeadingWhiteSpace(s);
    }
  }

  lemma {:induction false} TrimEndKeepsInnerSpace(s: string)
    ensures HasInnerSpace(TrimEnd(s)) <==> HasInnerSpace(s)
    ensures TrimEnd(s) != [] ==> !IsWhiteSpace(TrimEnd(s)[|TrimEnd(s)| - 1])
    decreases |s|
  {
    if s != [] && IsWhiteSpace(s[|s| - 1]) {
      TrimEndKeepsInnerSpace(s[..|s| - 1]);
      DropTrailingWhiteSpace(s);
    }
  }

  /** In a text with no white space at either end, a space is an inner space. */
  lemma SpaceInTrimmed(t: string)
    requires t != [] ==> !IsWhiteSpace(t[0]) && !IsWhiteSpace(t[|t| - 1])
    ensures ' ' in t <==> HasInnerSpace(t)
  {
    if ' ' in t {
      var j :| 0 <= j < |t| && t[j] == ' ';
      assert IsWhiteSpace(' ');
      assert SpaceBetween(t, 0, j, |t| - 1);
    }
    if HasInnerSpace(t) {
      var i, j, k :| SpaceBetween(t, i, j, k);
      assert t[j] in t;
    }
  }

  /** The text is taken for SQL exactly when it has a space between two
      non-white-space characters; a lone word, padded or not, is taken for a
      stored procedure name. */
  lemma GuessIsTextIffInnerSpace(sqlOrProcedure: string)
    ensures ChooseCommandType(sqlOrProcedure, None) == Text <==> HasInnerSpace(sqlOrProcedure)
  {
    TrimStartKeepsInnerSpace(sqlOrProcedure);
    TrimEndKeepsInnerSpace(TrimStart(sqlOrProcedure));
    SpaceInTrimmed(Trim(sqlOrProcedure));
  }

  // ----- Parameters -----

  datatype DbType =
    | AnsiString | String | StringFixedLength | AnsiStringFixedLength
    | Decimal | Int32 | Int64 | Boolean | DateTime | Guid | Binary | OtherDbType(code: int)

  /** `GetDefaultSizeForType` */
  function DefaultSizeForType(dbType: DbType): (size: int)
    ensures size == 4000 <==> dbType in {String, AnsiString, StringFixedLength, AnsiStringFixedLength}
    ensures size == 18 <==> dbType == Decimal
    ensures size == 0 <==> !(dbType in {String, AnsiString, StringFixedLength, AnsiStringFixedLength, Decimal})
  {
    match dbType
    case String => 4000
    case AnsiString => 4000
    case StringFixedLength => 4000
    case AnsiStringFixedLength => 4000
    case Decimal => 18
    case _ => 0
  }

  datatype ParameterDirection = Input | Output | InputOutput | ReturnValue

  /** The enum's numeric value. */
  function DirectionValue(d: ParameterDirection): int
  {
    match d
    case Input => 1
    case Output => 2
    case InputOutput => 3
    case ReturnValue => 6
  }

  /** `d.HasFlag(ParameterDirection.Output)`: the bit of `Output` is set, and
      `ReturnValue` (6) has it too. */
  predicate HasOutputFlag(d: ParameterDirection): (b: bool)
    ensures b <==> d != Input
  {
    (DirectionValue(d) / 2) % 2 == 1
  }

  /** A parameter value: `DBNull.Value` or an object reference. */
  datatype ParamValue = DBNull | Given(value: Value)

  datatype Parameter = Parameter(
    name: string,
    value: ParamValue,
    direction: ParameterDirection,
    dbType: DbType,
    size: int)

  /** Whether `AddParameter` makes a parameter called `name` an output one. */
  predicate NamesOutput(name: string)
  {
    StartsWithIgnoreCase(name, "Output_") || StartsWithIgnoreCase(name, "@Output_")
  }

  /** The parameter `AddParameter(command, name, value)` adds; the provider
      infers the parameter's `DbType` from its value with `dbTypeOf`. */
  function NewParameter(name: string, value: Value, commandType: CommandType, dbTypeOf: ParamValue -> DbType)
    : (p: Parameter)
    ensures p.name == "@" + name <==> !("@" <= name) && commandType == StoredProcedure
    ensures p.name != "@" + name ==> p.name == name
    ensures p.value == DBNull <==> value == Null
    ensures p.value.Given? ==> p.value.value == value
    ensures p.direction == Output <==> NamesOutput(name)
    ensures p.direction != Output ==> p.direction == Input
    ensures p.size != 0 ==> p.direction == Output && value == Null
    ensures p.direction == Output && value == Null ==> p.size == DefaultSizeForType(dbTypeOf(DBNull))
  {
    var parameterName := if !("@" <= name) && commandType == StoredProcedure then "@" + name else name;
    var v := if value == Null then DBNull else Given(value);
    var output := NamesOutput(name);
    var size := if output && value == Null then DefaultSizeForType(dbTypeOf(v)) else 0;
    Parameter(parameterName, v, if output then Output else Input, dbTypeOf(v), size)
  }

  function NewParameters(pairs: seq<(string, Value)>, commandType: CommandType, dbTypeOf: ParamValue -> DbType)
    : (ps: seq<Parameter>)
    ensures |ps| == |pairs|
    ensures forall i :: 0 <= i < |pairs| ==> ps[i] == NewParameter(pairs[i].0, pairs[i].1, commandType, dbTypeOf)
  {
    seq(|pairs|, i requires 0 <= i < |pairs| => NewParameter(pairs[i].0, pairs[i].1, commandType, dbTypeOf))
  }

  // ----- Output parameters -----

  /** The first parameter, from index `i` on, with the output flag and the
      given name ignoring case. */
  function FirstOutput(ps: seq<Parameter>, name: string, i: nat): (r: Option<nat>)
    requires i <= |ps|
    decreases |ps| - i
    ensures r.Some? ==> i <= r.value < |ps| && HasOutputFlag(ps[r.value].direction)
                        && EqualsIgnoreCase(ps[r.value].name, name)
                        && forall j :: i <= j < r.value ==> !(HasOutputFlag(ps[j].direction) && EqualsIgnoreCase(ps[j].name, name))
    ensures r.None? ==> forall j :: i <= j < |ps| ==> !(HasOutputFlag(ps[j].direction) && EqualsIgnoreCase(ps[j].name, name))
  {
    if i == |ps| then None
    else if HasOutputFlag(ps[i].direction) && EqualsIgnoreCase(ps[i].name, name) then Some(i)
    else FirstOutput(ps, name, i + 1)
  }

  /** `GetOutputParameter(name)`, before the conversion to `TOut`: the value
      of the first matching output parameter, null for none or for `DBNull`. */
  function GetOutputParameter(ps: seq<Parameter>, name: string): (v: Value)
    ensures FirstOutput(ps, name, 0).None? ==> v == Null
    ensures FirstOutput(ps, name, 0).Some? ==>
              var p := ps[FirstOutput(ps, name, 0).value];
              v == if p.value.DBNull? then Null else p.value.value
  {
    match FirstOutput(ps, name, 0)
    case None => Null
    case Some(i) => if ps[i].value.DBNull? then Null else ps[i].value.value
  }

  /** An output parameter's reported value: null for `DBNull`. */
  function Reported(p: Parameter): Value
  {
    if p.value.DBNull? then Null else p.value.value
  }

  /** `GetAllOutputParameters`: the output parameters by name, or the
      exception `ToDictionary` throws on the first repeated name. */
  function AllOutputParameters(ps: seq<Parameter>): Result<map<string, Value>>
  {
    if ps == [] then Success(map[])
    else
      var p := ps[|ps| - 1];
      match AllOutputParameters(ps[..|ps| - 1])
      case Failure(e) => Failure(e)
      case Success(m) =>
        if !HasOutputFlag(p.direction) then Success(m)
        else if p.name in m then Failure(ArgumentError("key"))
        else Success(m[p.name := Reported(p)])
  }

  datatype Result<T> = Success(value: T) | Failure(error: Exception)

  /** No two output parameters share a name (compared exactly). */
  predicate DistinctOutputNames(ps: seq<Parameter>)
  {
    forall i, j :: 0 <= i < j < |ps| && HasOutputFlag(ps[i].direction) && HasOutputFlag(ps[j].direction) ==>
      ps[i].name != ps[j].name
  }

  /** Output names stay distinct after appending a parameter exactly when
      they were distinct and the new one, if it is an output, is not among them. */
  lemma DistinctOutputNamesSnoc(init: seq<Parameter>, p: Parameter)
    ensures DistinctOutputNames(init + [p]) <==>
              DistinctOutputNames(init)
              && (HasOutputFlag(p.direction) ==>
                    forall i :: 0 <= i < |init| && HasOutputFlag(init[i].direction) ==> init[i].name != p.name)
  {
    var ps := init + [p];
    assert forall i :: 0 <= i < |init| ==> ps[i] == init[i];
    assert ps[|init|] == p;
  }

  /** The read succeeds exactly when no two output parameters share a name. */
  lemma {:induction false} AllOutputParametersSucceedIffDistinct(ps: seq<Parameter>)
    ensures AllOutputParameters(ps).Success? <==> DistinctOutputNames(ps)
    decreases |ps|
  {
    if ps != [] {
      var init := ps[..|ps| - 1];
      var p := ps[|ps| - 1];
      assert ps == init + [p];
      AllOutputParametersSucceedIffDistinct(init);
      DistinctOutputNamesSnoc(init, p);
      if AllOutputParameters(init).Success? {
        AllOutputParametersHold(init);
      }
    }
  }

  /** A successful read holds exactly the output parameters, each with its
      reported value. */
  lemma {:induction false} AllOutputParametersHold(ps: seq<Parameter>)
    requires AllOutputParameters(ps).Success?
    ensures var m := AllOutputParameters(ps).value;
            && (forall i :: 0 <= i < |ps| && HasOutputFlag(ps[i].direction) ==> ps[i].name in m)
            && (forall k :: k in m ==> exists i :: 0 <= i < |ps| && HasOutputFlag(ps[i].direction) && ps[i].name == k
                                                   && m[k] == Reported(ps[i]))
    decreases |ps|
  {
    if ps != [] {
      var init := ps[..|ps| - 1];
      AllOutputParametersHold(init);
      assert forall i :: 0 <= i < |init| ==> init[i] == ps[i];
    }
  }

  /** Behind parameters with no output flag, an appended output parameter
      is found exactly under the names equal to its own ignoring case. */
  lemma FirstOutputOfAppended(ps: seq<Parameter>, p: Parameter, name: string)
    requires forall j :: 0 <= j < |ps| ==> !HasOutputFlag(ps[j].direction)
    requires HasOutputFlag(p.direction)
    ensures EqualsIgnoreCase(p.name, name) ==> FirstOutput(ps + [p], name, 0) == Some(|ps|)
    ensures !EqualsIgnoreCase(p.name, name) ==> FirstOutput(ps + [p], name, 0) == None
  {
    var qs := ps + [p];
    assert qs[|ps|] == p;
    assert forall j :: 0 <= j < |ps| ==> qs[j] == ps[j];
  }

  /** An `Output_` name does not start with "@", and the prefixed name
      differs from it ignoring case. */
  lemma OutputNameShape(name: string)
    requires StartsWithIgnoreCase(name, "Output_")
    ensures !("@" <= name)
    ensures !EqualsIgnoreCase("@" + name, name)
  {
    assert Lowered(name[..7])[0] == Lowered("Output_")[0];
    assert |Lowered("@" + name)| != |Lowered(name)|;
  }

  /** On a text command an `Output_` parameter is read back under its own
      name; on a stored procedure its name gains "@", so it is read back
      only under the prefixed name. */
  lemma OutputReadBack(ps: seq<Parameter>, name: string, value: Value, dbTypeOf: ParamValue -> DbType)
    requires StartsWithIgnoreCase(name, "Output_")
    requires forall j :: 0 <= j < |ps| ==> !HasOutputFlag(ps[j].direction)
    ensures GetOutputParameter(ps + [NewParameter(name, value, Text, dbTypeOf)], name) == value
    ensures GetOutputParameter(ps + [NewParameter(name, value, StoredProcedure, dbTypeOf)], "@" + name) == value
    ensures GetOutputParameter(ps + [NewParameter(name, value, StoredProcedure, dbTypeOf)], name) == Null
  {
    OutputNameShape(name);
    var t := NewParameter(name, value, Text, dbTypeOf);
    var sp := NewParameter(name, value, StoredProcedure, dbTypeOf);
    assert t.name == name && sp.name == "@" + name;
    FirstOutputOfAppended(ps, t, name);
    FirstOutputOfAppended(ps, sp, "@" + name);
    FirstOutputOfAppended(ps, sp, name);
  }

  // ----- Commands and connections -----

  class Command {
    var commandText: string
    var commandType: CommandType
    var commandTimeout: Option<int>
    var parameters: seq<Parameter>
    const dbTypeOf: ParamValue -> DbType

    constructor(dbTypeOf: ParamValue -> DbType)
      ensures commandText == "" && commandType == Text && commandTimeout == None && parameters == []
      ensures this.dbTypeOf == dbTypeOf
    {
      commandText := "";
      commandType := Text;
      commandTimeout := None;
      parameters := [];
      this.dbTypeOf := dbTypeOf;
    }

    /** `AddParameter(command, name, value)` */
    method AddParameter(name: string, value: Value)
      modifies this
      ensures parameters == old(parameters) + [NewParameter(name, value, commandType, dbTypeOf)]
      ensures commandText == old(commandText) && commandType == old(commandType) && commandTimeout == old(commandTimeout)
    {
      parameters := parameters + [NewParameter(name, value, commandType, dbTypeOf)];
    }

    /** `AddParameters(command, param)`: the pairs of a dictionary, or the
        public properties of an object, in order; null adds nothing. */
    method AddParameters(param: Option<seq<(string, Value)>>)
      modifies this
      ensures param.None? ==> parameters == old(parameters)
      ensures param.Some? ==> parameters == old(parameters) + NewParameters(param.value, commandType, dbTypeOf)
      ensures commandText == old(commandText) && commandType == old(commandType) && commandTimeout == old(commandTimeout)
    {
      if param.None? {
        return;
      }
      var pairs := param.value;
      var i := 0;
      while i < |pairs|
        invariant 0 <= i <= |pairs|
        invariant parameters == old(parameters) + NewParameters(pairs[..i], commandType, dbTypeOf)
        invariant commandText == old(commandText) && commandType == old(commandType) && commandTimeout == old(commandTimeout)
      {
        AddParameter(pairs[i].0, pairs[i].1);
        assert pairs[..i + 1] == pairs[..i] + [pairs[i]];
        i := i + 1;
      }
      assert pairs[..i] == pairs;
    }
  }

  datatype ConnectionState = Closed | Open

  /** What the connection sees: opening, closing and executed commands. */
  datatype ConnectionEvent = Opened | ClosedAgain | Executed(text: string, commandType: CommandType, parameters: seq<Parameter>)

  class Connection {
    var state: ConnectionState
    var log: seq<ConnectionEvent>
    const dbTypeOf: ParamValue -> DbType

    constructor(dbTypeOf: ParamValue -> DbType)
      ensures state == Closed && log == [] && this.dbTypeOf == dbTypeOf
    {
      state := Closed;
      log := [];
      this.dbTypeOf := dbTypeOf;
    }

    method OpenConnection()
      modifies this
      ensures state == Open && log == old(log) + [Opened]
    {
      state := Open;
      log := log + [Opened];
    }

    /** `ExecuteNonQuery` on a command of this connection. */
    method ExecuteCommand(cmd: Command)
      modifies this
      ensures state == old(state)
      ensures log == old(log) + [Executed(cmd.commandText, cmd.commandType, cmd.parameters)]
    {
      log := log + [Executed(cmd.commandText, cmd.commandType, cmd.parameters)];
    }

    method CloseConnection()
      modifies this
      ensures state == Closed && log == old(log) + [ClosedAgain]
    {
      state := Closed;
      log := log + [ClosedAgain];
    }
  }

  /** `CreateCommand`: a new command with the text, the timeout if given,
      the chosen command type and the parameters. */
  method CreateCommand(connection: Connection, sqlOrProcedure: string, param: Option<seq<(string, Value)>>,
                       commandTimeout: Option<int>, commandType: Option<CommandType>)
    returns (cmd: Command)
    ensures fresh(cmd)
    ensures cmd.commandText == sqlOrProcedure && cmd.commandTimeout == commandTimeout
    ensures cmd.commandType == ChooseCommandType(sqlOrProcedure, commandType)
    ensures cmd.parameters == if param.None? then [] else NewParameters(param.value, cmd.commandType, connection.dbTypeOf)
  {
    cmd := new Command(connection.dbTypeOf);
    cmd.commandText := sqlOrProcedure;
    if commandTimeout.Some? {
      cmd.commandTimeout := commandTimeout;
    }
    cmd.commandType := ChooseCommandType(sqlOrProcedure, commandType);
    cmd.AddParameters(param);
  }

  /** Creating the command and running it on the connection: the
      connection sees the command with the chosen type and its parameters. */
  method RunCommand(connection: Connection, sqlOrProcedure: string, param: Option<seq<(string, Value)>>,
                    commandTimeout: Option<int>, commandType: Option<CommandType>)
    modifies connection
    ensures connection.state == old(connection.state)
    ensures var kind := ChooseCommandType(sqlOrProcedure, commandType);
            connection.log == old(connection.log) +
              [Executed(sqlOrProcedure, kind, if param.None? then [] else NewParameters(param.value, kind, connection.dbTypeOf))]
  {
    var cmd := CreateCommand(connection, sqlOrProcedure, param, commandTimeout, commandType);
    connection.ExecuteCommand(cmd);
  }

  /** `Execute`: `nonQuery` is what the database answers to the command (a
      row count or an exception). A closed connection is opened for the call
      and closed again whatever the answer; an open one is left open. */
  method Execute(connection: Connection?, sqlOrProcedure: string, param: Option<seq<(string, Value)>>,
                 commandTimeout: Option<int>, commandType: Option<CommandType>, nonQuery: Result<int>)
    returns (r: Result<int>)
    modifies connection
    ensures connection == null ==> r == Failure(ArgumentNull("connection"))
    ensures connection != null ==>
              var kind := ChooseCommandType(sqlOrProcedure, commandType);
              var ps := if param.None? then [] else NewParameters(param.value, kind, connection.dbTypeOf);
              && r == nonQuery
              && connection.state == old(connection.state)
              && connection.log == old(connection.log) +
                   (if old(connection.state) == Closed
                    then [Opened, Executed(sqlOrProcedure, kind, ps), ClosedAgain]
                    else [Executed(sqlOrProcedure, kind, ps)])
  {
    if connection == null {
      return Failure(ArgumentNull("connection"));
    }
    r := nonQuery;
    if connection.state == Closed {
      connection.OpenConnection();
      RunCommand(connection, sqlOrProcedure, param, commandTimeout, commandType);
      connection.CloseConnection();
    } else {
      RunCommand(connection, sqlOrProcedure, param, commandTimeout, commandType);
    }
  }
}
