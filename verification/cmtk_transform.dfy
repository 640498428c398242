/** A CMTK transform: an ordered list of registrations, each applied forward or
    inverse, that the `streamxform` tool applies one after another. The object
    keeps two parallel lists, `regs` (registration paths) and `directions`
    (the strings "forward" or "inverse"), a fixed command name and an optional
    thread count. */
module CmtkTransforms {

  import opened Errors
  import Strings

  const Forward := "forward"
  const Inverse := "inverse"
  /** The CMTK tool every transform runs. */
  const StreamXform := "streamxform"
  /** The flag that marks the next registration as applied inverse. */
  const InverseFlag := "--inverse"
  const AffineOnlyFlag := "--affine-only"
  const EndOfOptions := "--"
  const ThreadsPrefix := "--threads "

  predicate IsDirection(d: string) {
    d == Forward || d == Inverse
  }

  /** A registration as the transform stores it: a `str`, or a
      `pathlib.Path`. A path is represented by the text `str()` gives for it,
      the normalised one; two POSIX paths are equal exactly when those texts
      are. A `str` and a path are never equal, even with the same text. */
  datatype Reg = StrReg(s: string) | PathReg(p: string)

  /** The text a registration is passed to the tool as: the string itself,
      or the normalised text of the path. */
  function RegText(r: Reg): string
  {
    match r
    case StrReg(s) => s
    case PathReg(p) => p
  }

  /** The texts of a list of registrations, in order. */
  function Texts(regs: seq<Reg>): (r: seq<string>)
    ensures |r| == |regs|
    ensures forall i :: 0 <= i < |regs| ==> r[i] == RegText(regs[i])
  {
    seq(|regs|, i requires 0 <= i < |regs| => RegText(regs[i]))
  }

  datatype Transform = Transform(
    regs: seq<Reg>,
    directions: seq<string>,
    command: string,
    threads: Option<int>)

  /** One direction per registration. */
  predicate Parallel(t: Transform) {
    |t.regs| == |t.directions|
  }

  /** The invariant every transform the constructor builds satisfies: one
      direction per registration, and every direction "forward" or "inverse". */
  predicate Valid(t: Transform) {
    Parallel(t) && AllDirections(t.directions)
  }

  predicate AllDirections(ds: seq<string>) {
    forall i :: 0 <= i < |ds| ==> IsDirection(ds[i])
  }

  /** A Python argument that may be a single value or a list of them. */
  datatype Items<T> = One(item: T) | Many(items: seq<T>)

  /** The constructor's use of `make_iterable`: a single value (a `str` or
      a path) becomes a one-element list, and a list is kept. */
  function AsList<T>(x: Items<T>): (r: seq<T>)
    ensures x.One? ==> r == [x.item]
    ensures x.Many? ==> r == x.items
  {
    match x
    case One(v) => [v]
    case Many(vs) => vs
  }

  /** The operand of `==` and `append`: another transform, a path given as a
      `str`, a path given as a `pathlib.Path` (by its normalised text), or
      anything else. */
  datatype Operand =
    | TransformOp(t: Transform)
    | StrOp(s: string)
    | PathOp(p: string)
    | OtherOp

  /** Whether the constructor's `len(regs)` is reached on a single
      `pathlib.Path`: `len(directions)` is taken on the argument as given,
      so a one-element list of directions goes on to `len(regs)`, which a
      path does not support. A direction given as a string is never of
      length one once it is "forward" or "inverse". */
  predicate LengthOfPath(regs: Items<Reg>, directions: Items<string>) {
    directions.Many? && |directions.items| == 1 && regs.One? && regs.item.PathReg?
  }

  /** `CMTKtransform(regs, directions, threads)`. Every direction is checked
      first (an assertion); `len(regs)` then raises `TypeError` on a single
      path when one direction came in a list; finally the two lists must
      have equal length. The rebinding of the local `directions` is never
      read again, so a single direction is never broadcast to several
      registrations. */
  function New(regs: Items<Reg>, directions: Items<string>, threads: Option<int>): (r: Result<Transform>)
    ensures r.Ok? <==> AllDirections(AsList(directions))
                       && !LengthOfPath(regs, directions)
                       && |AsList(regs)| == |AsList(directions)|
    ensures !AllDirections(AsList(directions)) ==> r == Err(AssertionError)
    ensures AllDirections(AsList(directions)) && LengthOfPath(regs, directions) ==> r == Err(TypeError)
    ensures AllDirections(AsList(directions)) && !LengthOfPath(regs, directions) && r.Err? ==>
              r.error == ValueError
    ensures r.Ok? ==> Valid(r.value)
    ensures r.Ok? ==> r.value.regs == AsList(regs)
                      && r.value.directions == AsList(directions)
                      && r.value.command == StreamXform
                      && r.value.threads == threads
  {
    var ds := AsList(directions);
    if !AllDirections(ds) then Err(AssertionError)
    else if LengthOfPath(regs, directions) then Err(TypeError)
    else
      var rs := AsList(regs);
      if |rs| != |ds| then Err(ValueError)
      else Ok(Transform(rs, ds, StreamXform, threads))
  }

  /** One direction in a list is accepted with a single path given as a
      string but not with the same path given as a `pathlib.Path`, and a
      single direction given as a string is accepted with either. */
  lemma ListedDirectionWithPath(p: string, d: string)
    requires d == Forward || d == Inverse
    ensures New(One(StrReg(p)), Many([d]), None).Ok?
    ensures New(One(PathReg(p)), Many([d]), None) == Err(TypeError)
    ensures New(One(PathReg(p)), One(d), None).Ok?
  {
    assert AllDirections([d]);
  }

  /** A single direction given as a one-element list is not repeated for two
      registrations: the constructor raises. */
  lemma NoBroadcast(a: Reg, b: Reg)
    ensures New(Many([a, b]), Many([Inverse]), None) == Err(ValueError)
    ensures New(Many([a, b]), One(Forward), None) == Err(ValueError)
  {
    assert AllDirections([Inverse]);
    assert AllDirections([Forward]);
  }

  /** `len(t)`: the number of registrations, which for a transform with one
      direction per registration is also the number of directions. */
  function Len(t: Transform): (n: nat)
    ensures Parallel(t) ==> n == |t.directions|
    ensures n == 0 <==> t.regs == []
  {
    |t.regs|
  }

  /** `t == other`: another transform with the same registrations and the
      same directions, position by position. Command and thread count are not
      compared; anything that is not a transform is unequal. */
  function Eq(t: Transform, other: Operand): (r: bool)
    requires Parallel(t)
    requires other.TransformOp? ==> Parallel(other.t)
    ensures r <==> other.TransformOp? && t.regs == other.t.regs && t.directions == other.t.directions
  {
    match other
    case TransformOp(u) =>
      && Len(t) == Len(u)
      && (forall i :: 0 <= i < Len(t) ==> t.regs[i] == u.regs[i])
      && (forall i :: 0 <= i < Len(t) ==> t.directions[i] == u.directions[i])
    case _ => false
  }

  /** Equality of transforms ignores the command and the thread count. */
  lemma EqIgnoresThreads(t: Transform, threads: Option<int>)
    requires Parallel(t)
    ensures Eq(t, TransformOp(t.(threads := threads)))
    ensures Eq(t.(threads := threads), TransformOp(t))
  {
  }

  /** Equality of transforms is symmetric and transitive. */
  lemma EqSymmetricTransitive(a: Transform, b: Transform, c: Transform)
    requires Parallel(a) && Parallel(b) && Parallel(c)
    ensures Eq(a, TransformOp(b)) ==> Eq(b, TransformOp(a))
    ensures Eq(a, TransformOp(b)) && Eq(b, TransformOp(c)) ==> Eq(a, TransformOp(c))
  {
  }

  /** The sequence in reverse order. */
  function Reverse<T>(s: seq<T>): (r: seq<T>)
    ensures |r| == |s|
    ensures forall i :: 0 <= i < |s| ==> r[i] == s[|s| - 1 - i]
  {
    if |s| == 0 then [] else Reverse(s[1..]) + [s[0]]
  }

  lemma ReverseReverse<T>(s: seq<T>)
    ensures Reverse(Reverse(s)) == s
  {
  }

  lemma ReverseConcat<T>(a: seq<T>, b: seq<T>)
    ensures Reverse(a + b) == Reverse(b) + Reverse(a)
  {
  }

  /** The direction opposite to a valid one: "forward" and "inverse" swap. */
  function Opposite(d: string): string
    requires IsDirection(d)
  {
    if d == Forward then Inverse else Forward
  }

  /** The swap applied to every direction. */
  function Opposites(ds: seq<string>): (r: seq<string>)
    requires AllDirections(ds)
    ensures |r| == |ds|
  {
    seq(|ds|, i requires 0 <= i < |ds| => Opposite(ds[i]))
  }

  /** `-t`: a copy with every direction swapped and the order of the
      registrations reversed. Raises `KeyError` on a direction that is neither
      "forward" nor "inverse". */
  function Negate(t: Transform): (r: Result<Transform>)
    ensures r.Ok? <==> AllDirections(t.directions)
    ensures r.Err? ==> r.error == KeyError
    ensures r.Ok? ==> Len(r.value) == Len(t) && |r.value.directions| == |t.directions|
    ensures r.Ok? ==> forall i :: 0 <= i < |t.regs| ==> r.value.regs[i] == t.regs[|t.regs| - 1 - i]
    ensures r.Ok? ==> forall i :: 0 <= i < |t.directions| ==>
                        IsDirection(r.value.directions[i])
                        && r.value.directions[i] != t.directions[|t.directions| - 1 - i]
    ensures r.Ok? ==> r.value.command == t.command && r.value.threads == t.threads
  {
    if !AllDirections(t.directions) then Err(KeyError)
    else Ok(t.(regs := Reverse(t.regs), directions := Reverse(Opposites(t.directions))))
  }

  /** Negation keeps a transform valid. */
  lemma NegateValid(t: Transform)
    requires Valid(t)
    ensures Negate(t).Ok? && Valid(Negate(t).value)
  {
  }

  /** Negation is an involution: negating twice gives back the transform. */
  lemma NegateNegate(t: Transform)
    requires AllDirections(t.directions)
    ensures Negate(t).Ok?
    ensures Negate(Negate(t).value) == Ok(t)
  {
    var n := Negate(t).value;
    ReverseReverse(t.regs);
    var ds := t.directions;
    var os := Opposites(ds);
    OppositesReverse(os);
    OppositesOpposites(ds);
    ReverseReverse(Opposites(os));
    assert Reverse(Opposites(n.directions)) == ds;
  }

  /** Swapping twice restores every direction. */
  lemma OppositesOpposites(ds: seq<string>)
    requires AllDirections(ds)
    ensures AllDirections(Opposites(ds)) && Opposites(Opposites(ds)) == ds
  {
  }

  /** Swapping commutes with reversing. */
  lemma OppositesReverse(ds: seq<string>)
    requires AllDirections(ds)
    ensures AllDirections(Reverse(ds))
    ensures Opposites(Reverse(ds)) == Reverse(Opposites(ds))
  {
  }

  /** The number of "inverse" entries. */
  function CountInverse(ds: seq<string>): nat
  {
    if |ds| == 0 then 0
    else (if ds[0] == Inverse then 1 else 0) + CountInverse(ds[1..])
  }

  /** `zip(regs, directions)` turned into `streamxform` arguments: the text
      of each registration, preceded by `--inverse` when its direction is
      "inverse". */
  function RegargsOf(regs: seq<Reg>, dirs: seq<string>): (r: seq<string>)
    requires |regs| == |dirs|
    ensures |r| == |regs| + CountInverse(dirs)
  {
    if |regs| == 0 then []
    else (if dirs[0] == Inverse then [InverseFlag] else []) + [RegText(regs[0])] + RegargsOf(regs[1..], dirs[1..])
  }

  /** The `regargs` property. */
  function Regargs(t: Transform): seq<string>
    requires Parallel(t)
  {
    RegargsOf(t.regs, t.directions)
  }

  /** An argument that the tool would read as an option rather than a path. */
  predicate IsFlagLike(s: string) {
    |s| >= 2 && s[..2] == "--"
  }

  /** Reads a `regargs` list back into registrations and directions. */
  function DecodeRegargs(args: seq<string>): (seq<string>, seq<string>)
  {
    if |args| == 0 then ([], [])
    else if args[0] == InverseFlag && |args| >= 2 then
      var (rs, ds) := DecodeRegargs(args[2..]);
      ([args[1]] + rs, [Inverse] + ds)
    else
      var (rs, ds) := DecodeRegargs(args[1..]);
      ([args[0]] + rs, [Forward] + ds)
  }

  /** `--inverse` itself looks like an option. */
  lemma InverseFlagIsFlagLike()
    ensures IsFlagLike(InverseFlag)
  {
    assert InverseFlag[..2] == "--";
  }

  /** Decoding a registration preceded by `--inverse`. */
  lemma DecodeInverse(reg: string, rest: seq<string>)
    ensures DecodeRegargs([InverseFlag, reg] + rest)
            == ([reg] + DecodeRegargs(rest).0, [Inverse] + DecodeRegargs(rest).1)
  {
    assert ([InverseFlag, reg] + rest)[2..] == rest;
  }

  /** Decoding a registration that is not `--inverse` on its own. */
  lemma DecodeForward(reg: string, rest: seq<string>)
    requires reg != InverseFlag
    ensures DecodeRegargs([reg] + rest)
            == ([reg] + DecodeRegargs(rest).0, [Forward] + DecodeRegargs(rest).1)
  {
    assert ([reg] + rest)[1..] == rest;
  }

  /** The registrations' texts and the directions can be read back from
      `regargs`: every registration appears, in order, preceded by
      `--inverse` exactly when its direction is "inverse". */
  lemma {:induction false} RegargsRoundTrip(regs: seq<Reg>, dirs: seq<string>)
    requires |regs| == |dirs| && AllDirections(dirs)
    requires forall i :: 0 <= i < |regs| ==> !IsFlagLike(RegText(regs[i]))
    ensures DecodeRegargs(RegargsOf(regs, dirs)) == (Texts(regs), dirs)
  {
    if |regs| > 0 {
      RegargsRoundTrip(regs[1..], dirs[1..]);
      var rest := RegargsOf(regs[1..], dirs[1..]);
      var text := RegText(regs[0]);
      InverseFlagIsFlagLike();
      assert text != InverseFlag;
      if dirs[0] == Inverse {
        assert RegargsOf(regs, dirs) == [InverseFlag, text] + rest;
        DecodeInverse(text, rest);
      } else {
        assert RegargsOf(regs, dirs) == [text] + rest;
        DecodeForward(text, rest);
        assert dirs[0] == Forward;
      }
      TextsCons(regs);
      assert dirs == [dirs[0]] + dirs[1..];
    }
  }

  /** The texts of a list are the first one's followed by the rest's. */
  lemma TextsCons(regs: seq<Reg>)
    requires |regs| > 0
    ensures Texts(regs) == [RegText(regs[0])] + Texts(regs[1..])
  {
  }

  /** Python truthiness of the optional thread count: `None` and `0` are false. */
  predicate HasThreads(threads: Option<int>) {
    threads.Some? && threads.value != 0
  }

  /** The threads argument, one string holding flag and number. */
  function ThreadsArg(n: int): string
  {
    ThreadsPrefix + Strings.IntToString(n)
  }

  /** Position `i` of a path text starts an empty segment (`//`) or a `.`
      segment. */
  predicate Unnormalised(d: string, i: int) {
    0 <= i < |d|
    && ((d[i] == '/' && i + 1 < |d| && d[i + 1] == '/')
        || (d[i] == '.' && (i == 0 || d[i - 1] == '/') && (i + 1 == |d| || d[i + 1] == '/')))
  }

  /** The text `str()` gives for a POSIX `pathlib.Path`: `.` for the empty
      path, `/` for the root, otherwise text without empty or `.` segments
      and without a `/` at the end. */
  predicate PathText(d: string) {
    d == "." || d == "/"
    || (|d| > 0 && d[|d| - 1] != '/' && forall i :: 0 <= i < |d| ==> !Unnormalised(d, i))
  }

  /** A single path segment other than `.`, such as the command name. */
  predicate PathName(n: string) {
    |n| > 0 && n != "." && '/' !in n
  }

  /** `str(dir / name)` for a path and a single segment: the name becomes
      the last segment, after the directory and one `/`; the empty path
      `.` contributes nothing, and the root contributes only its `/`. The
      result is again the text of a path. */
  function JoinPath(dir: string, name: string): (r: string)
    requires PathText(dir) && PathName(name)
    ensures PathText(r) && r != "." && r != "/"
    ensures |r| >= |name| && r[|r| - |name|..] == name
    ensures dir == "." <==> r == name
    ensures dir != "." ==> r[..|r| - |name|] == (if dir == "/" then dir else dir + "/")
  {
    var r := if dir == "." then name else if dir == "/" then "/" + name else dir + "/" + name;
    assert r[|r| - |name|..] == name;
    forall i | 0 <= i < |r|
      ensures !Unnormalised(r, i)
    {
      var k := |r| - |name|;
      if i >= k {
        assert r[i] == name[i - k];
        assert name[i - k] in name;
        if i + 1 < |r| {
          assert r[i + 1] == name[i + 1 - k];
          assert name[i + 1 - k] in name;
        }
        if i > k {
          assert r[i - 1] == name[i - 1 - k];
          assert name[i - 1 - k] in name;
        } else if |name| == 1 {
          assert name == [name[0]];
        }
      } else if i == |dir| {
        assert r[i + 1] == name[0];
      } else if dir != "/" && dir != "." {
        assert r[i] == dir[i];
        assert i + 1 < |dir| ==> r[i + 1] == dir[i + 1];
        assert i + 1 == |dir| ==> r[i + 1] == '/';
        assert i > 0 ==> r[i - 1] == dir[i - 1];
        assert !Unnormalised(dir, i);
      }
    }
    r
  }

  /** `make_args`: the binary (the directory holding the CMTK tools joined
      with the command), exactly one of `--affine-only` or `--`, the threads
      argument only when a thread count is set, then `regargs`. The directory
      is given by its text, as `str()` gives it for a path. */
  function MakeArgs(t: Transform, cmtkBin: string, affineOnly: bool): (r: seq<string>)
    requires Parallel(t) && PathText(cmtkBin) && PathName(t.command)
    ensures |r| == 2 + (if HasThreads(t.threads) then 1 else 0) + |Regargs(t)|
    ensures r[0] == JoinPath(cmtkBin, t.command)
    ensures r[1] == AffineOnlyFlag <==> affineOnly
    ensures r[1] == EndOfOptions <==> !affineOnly
    ensures HasThreads(t.threads) ==> r[2] == ThreadsArg(t.threads.value)
    ensures r[|r| - |Regargs(t)|..] == Regargs(t)
  {
    [JoinPath(cmtkBin, t.command)] + Options(t, affineOnly)
  }

  /** The arguments after the binary: the affine switch, then the rest. */
  function Options(t: Transform, affineOnly: bool): seq<string>
    requires Parallel(t)
  {
    [if affineOnly then AffineOnlyFlag else EndOfOptions] + ThreadsAndRegargs(t)
  }

  /** The threads argument when a thread count is set, then `regargs`. */
  function ThreadsAndRegargs(t: Transform): seq<string>
    requires Parallel(t)
  {
    (if HasThreads(t.threads) then [ThreadsArg(t.threads.value)] else []) + Regargs(t)
  }

  /** What a `streamxform` argument list says: affine-only or not, the thread
      count, the registration texts and their directions. */
  datatype Invocation = Invocation(affineOnly: bool, threads: Option<int>, regs: seq<string>, directions: seq<string>)

  /** Reads an argument list built by `make_args` back (the binary is not
      read). */
  function DecodeArgs(args: seq<string>): Option<Invocation>
  {
    if |args| < 2 || (args[1] != AffineOnlyFlag && args[1] != EndOfOptions) then None
    else DecodeRest(args[1] == AffineOnlyFlag, args[2..])
  }

  /** An argument that starts like the threads one. */
  predicate IsThreadsArg(s: string) {
    |s| >= |ThreadsPrefix| && s[..|ThreadsPrefix|] == ThreadsPrefix
  }

  /** Reads the arguments after the affine switch: an optional threads
      argument, then `regargs`. */
  function DecodeRest(affine: bool, rest: seq<string>): Option<Invocation>
  {
    if |rest| > 0 && IsThreadsArg(rest[0]) then
      match Strings.ParseInt(rest[0][|ThreadsPrefix|..])
      case None => None
      case Some(n) =>
        var (rs, ds) := DecodeRegargs(rest[1..]);
        Some(Invocation(affine, Some(n), rs, ds))
    else
      var (rs, ds) := DecodeRegargs(rest);
      Some(Invocation(affine, None, rs, ds))
  }

  /** The `make_args` vector determines the transform it was built from: the
      affine switch, the thread count when it is set, and every registration
      with its direction, in order. */
  lemma MakeArgsRoundTrip(t: Transform, cmtkBin: string, affineOnly: bool)
    requires Valid(t) && PathText(cmtkBin) && PathName(t.command)
    requires forall i :: 0 <= i < |t.regs| ==> !IsFlagLike(RegText(t.regs[i]))
    ensures DecodeArgs(MakeArgs(t, cmtkBin, affineOnly))
            == Some(Invocation(affineOnly,
                               if HasThreads(t.threads) then t.threads else None,
                               Texts(t.regs), t.directions))
  {
    DecodeOptions(JoinPath(cmtkBin, t.command), t, affineOnly);
  }

  /** The arguments after the binary read back, whatever the binary. */
  lemma DecodeOptions(bin: string, t: Transform, affineOnly: bool)
    requires Valid(t)
    requires forall i :: 0 <= i < |t.regs| ==> !IsFlagLike(RegText(t.regs[i]))
    ensures DecodeArgs([bin] + Options(t, affineOnly))
            == Some(Invocation(affineOnly,
                               if HasThreads(t.threads) then t.threads else None,
                               Texts(t.regs), t.directions))
  {
    var args := [bin] + Options(t, affineOnly);
    assert args[1] == if affineOnly then AffineOnlyFlag else EndOfOptions;
    assert args[2..] == ThreadsAndRegargs(t);
    RegargsRoundTrip(t.regs, t.directions);
    if HasThreads(t.threads) {
      assert ThreadsAndRegargs(t) == [ThreadsArg(t.threads.value)] + Regargs(t);
      DecodeThreads(affineOnly, t.threads.value, Regargs(t));
    } else {
      assert ThreadsAndRegargs(t) == Regargs(t);
      DecodeNoThreads(affineOnly, t);
    }
  }

  /** A threads argument is read back as its count. */
  lemma DecodeThreads(affine: bool, n: int, rest: seq<string>)
    ensures var (rs, ds) := DecodeRegargs(rest);
            DecodeRest(affine, [ThreadsArg(n)] + rest) == Some(Invocation(affine, Some(n), rs, ds))
  {
    var args := [ThreadsArg(n)] + rest;
    Strings.ParseIntToString(n);
    assert ThreadsArg(n)[..|ThreadsPrefix|] == ThreadsPrefix;
    assert ThreadsArg(n)[|ThreadsPrefix|..] == Strings.IntToString(n);
    assert args[1..] == rest;
  }

  /** Without a threads argument, `regargs` follows the switch directly and
      its first entry is not read as a threads argument. */
  lemma DecodeNoThreads(affine: bool, t: Transform)
    requires Valid(t)
    requires forall i :: 0 <= i < |t.regs| ==> !IsFlagLike(RegText(t.regs[i]))
    ensures var (rs, ds) := DecodeRegargs(Regargs(t));
            DecodeRest(affine, Regargs(t)) == Some(Invocation(affine, None, rs, ds))
  {
    var ra := Regargs(t);
    if |ra| > 0 {
      if t.directions[0] == Inverse {
        assert ra[0] == InverseFlag;
      } else {
        assert ra[0] == RegText(t.regs[0]);
      }
      ThreadsArgIsFlagLike(ra[0]);
      InverseFlagIsFlagLike();
    }
  }

  /** An argument read as the threads one is option-like. */
  lemma ThreadsArgIsFlagLike(s: string)
    ensures IsThreadsArg(s) ==> IsFlagLike(s)
  {
    if IsThreadsArg(s) {
      assert s[..2] == s[..|ThreadsPrefix|][..2];
    }
  }

  /** `t.append(other, direction)` as written: another transform is
      concatenated when the commands agree; a `str` path is added with the
      given direction, which must only be non-empty; anything else (a
      `pathlib.Path` included) is rejected. */
  function AppendAsWritten(t: Transform, other: Operand, direction: Option<string>): (r: Result<Transform>)
    requires Parallel(t)
    requires other.TransformOp? ==> Parallel(other.t)
    ensures other.TransformOp? ==> (r.Ok? <==> t.command == other.t.command)
    ensures other.StrOp? ==> (r.Ok? <==> direction.Some? && direction.value != "")
    ensures other.PathOp? || other.OtherOp? ==> r == Err(NotImplementedError)
    ensures r.Err? && !other.PathOp? && !other.OtherOp? ==> r.error == ValueError
    ensures r.Ok? ==> Parallel(r.value) && r.value.command == t.command && r.value.threads == t.threads
    ensures r.Ok? && other.TransformOp? ==>
              r.value.regs == t.regs + other.t.regs && r.value.directions == t.directions + other.t.directions
    ensures r.Ok? && other.StrOp? ==>
              r.value.regs == t.regs + [StrReg(other.s)] && r.value.directions == t.directions + [direction.value]
  {
    match other
    case TransformOp(u) =>
      if t.command != u.command then Err(ValueError)
      else Ok(t.(regs := t.regs + u.regs, directions := t.directions + u.directions))
    case StrOp(s) =>
      if direction.None? || direction.value == "" then Err(ValueError)
      else Ok(t.(regs := t.regs + [StrReg(s)], directions := t.directions + [direction.value]))
    case _ => Err(NotImplementedError)
  }

  /** As written, `append` takes any non-empty direction, so a valid transform
      can gain a direction such as "sideways"; negating it then raises
      `KeyError`. */
  lemma AppendAsWrittenAcceptsBadDirection()
    ensures var t := Transform([], [], StreamXform, None);
            var r := AppendAsWritten(t, StrOp("reg.list"), Some("sideways"));
            Valid(t) && r.Ok? && !Valid(r.value) && Negate(r.value) == Err(KeyError)
  {
    var r := AppendAsWritten(Transform([], [], StreamXform, None), StrOp("reg.list"), Some("sideways"));
    assert r.value.directions[0] == "sideways";
  }

  /** `t.append(other, direction)`, with the direction of a path checked as
      the constructor checks it: a missing or empty direction raises
      `ValueError`, one other than "forward" or "inverse" fails the same
      assertion as in the constructor. */
  function Append(t: Transform, other: Operand, direction: Option<string>): (r: Result<Transform>)
    requires Parallel(t)
    requires other.TransformOp? ==> Parallel(other.t)
    ensures other.TransformOp? ==> (r.Ok? <==> t.command == other.t.command)
    ensures other.StrOp? ==> (r.Ok? <==> direction.Some? && IsDirection(direction.value))
    ensures other.PathOp? || other.OtherOp? ==> r == Err(NotImplementedError)
    ensures r.Ok? ==> Parallel(r.value) && Len(r.value) == Len(t) + (if other.TransformOp? then Len(other.t) else 1)
    ensures r.Ok? ==> r.value.command == t.command && r.value.threads == t.threads
    ensures r.Ok? && other.TransformOp? ==>
              r.value.regs == t.regs + other.t.regs && r.value.directions == t.directions + other.t.directions
    ensures r.Ok? && other.StrOp? ==>
              r.value.regs == t.regs + [StrReg(other.s)] && r.value.directions == t.directions + [direction.value]
  {
    match other
    case StrOp(s) =>
      if direction.None? || direction.value == "" then Err(ValueError)
      else if !IsDirection(direction.value) then Err(AssertionError)
      else AppendAsWritten(t, other, direction)
    case _ => AppendAsWritten(t, other, direction)
  }

  /** Appending keeps a transform valid. */
  lemma AppendValid(t: Transform, other: Operand, direction: Option<string>)
    requires Valid(t)
    requires other.TransformOp? ==> Valid(other.t)
    ensures Append(t, other, direction).Ok? ==> Valid(Append(t, other, direction).value)
  {
  }

  /** Negation reverses appending: `-(a + b)` equals `(-b) + (-a)`. */
  lemma NegateAppend(a: Transform, b: Transform)
    requires Valid(a) && Valid(b) && a.command == b.command
    ensures Append(a, TransformOp(b), None).Ok?
    ensures var ab := Append(a, TransformOp(b), None).value;
            var na := Negate(a).value;
            var nb := Negate(b).value;
            Negate(ab).Ok? && Append(nb, TransformOp(na), None).Ok?
            && Eq(Negate(ab).value, TransformOp(Append(nb, TransformOp(na), None).value))
  {
    var ab := Append(a, TransformOp(b), None).value;
    assert Opposites(ab.directions) == Opposites(a.directions) + Opposites(b.directions);
    ReverseConcat(a.regs, b.regs);
    ReverseConcat(Opposites(a.directions), Opposites(b.directions));
  }
}
