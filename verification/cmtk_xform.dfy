/** The argument handling of `xform_cmtk`: the `inverse` argument is turned
    into one direction per transform, and every registration path becomes a
    one-registration transform with its direction. The transforms are then
    chained and applied to the points by code outside this model. */
module CmtkXform {

  import opened Errors
  import opened CmtkTransforms

  /** `inverse`: one boolean meant for every transform, or one per transform. */
  datatype InverseArg = OneFlag(flag: bool) | Flags(flags: seq<bool>)

  /** The direction a flag asks for: "inverse" when it is set, "forward"
      otherwise. */
  function DirectionOf(inverse: bool): (d: string)
    ensures IsDirection(d)
    ensures d == Inverse <==> inverse
  {
    if inverse then Inverse else Forward
  }

  /** The list of directions: a single boolean is repeated once per transform,
      a list is used as given. */
  function Directions(count: nat, inverse: InverseArg): (ds: seq<string>)
    ensures inverse.OneFlag? ==> |ds| == count
    ensures inverse.Flags? ==> |ds| == |inverse.flags|
    ensures inverse.OneFlag? ==> forall i :: 0 <= i < |ds| ==> ds[i] == DirectionOf(inverse.flag)
    ensures inverse.Flags? ==> forall i :: 0 <= i < |ds| ==> ds[i] == DirectionOf(inverse.flags[i])
  {
    var flags := match inverse
      case OneFlag(b) => seq(count, _ => b)
      case Flags(bs) => bs;
    seq(|flags|, i requires 0 <= i < |flags| => DirectionOf(flags[i]))
  }

  /** Whether entry `i` of the list gets through the loop: a transform is
      kept, a path needs a direction at the same position. */
  predicate Resolvable(entry: Operand, i: nat, dirs: seq<string>) {
    entry.TransformOp? || ((entry.StrOp? || entry.PathOp?) && i < |dirs|)
  }

  /** The exception an entry that does not get through raises: `TypeError`
      for something that is neither a transform nor a path, `IndexError` for
      a path without a direction. */
  function FailureOf(entry: Operand): Error
  {
    if entry.StrOp? || entry.PathOp? then IndexError else TypeError
  }

  /** The registration a `str` or `pathlib.Path` entry is passed on as,
      unchanged: a `str` stays a `str` and a path stays a path. */
  function RegOf(entry: Operand): (r: Reg)
    requires entry.StrOp? || entry.PathOp?
    ensures entry.StrOp? <==> r.StrReg?
    ensures RegText(r) == if entry.StrOp? then entry.s else entry.p
  {
    if entry.StrOp? then StrReg(entry.s) else PathReg(entry.p)
  }

  /** The transform a path turns into: `CMTKtransform(path, directions=d)`. */
  function PathTransform(reg: Reg, direction: string): Transform
  {
    Transform([reg], [direction], StreamXform, None)
  }

  /** One pass of the loop on entry `i`: a transform is kept, a path
      becomes `CMTKtransform(path, directions=dirs[i])`. */
  function ResolveOne(e: Operand, i: nat, dirs: seq<string>): (r: Result<Transform>)
    requires forall j :: 0 <= j < |dirs| ==> IsDirection(dirs[j])
    ensures r.Ok? <==> Resolvable(e, i, dirs)
    ensures r.Err? ==> r.error == FailureOf(e)
    ensures r.Ok? && e.TransformOp? ==> r.value == e.t
    ensures r.Ok? && !e.TransformOp? ==> r.value == PathTransform(RegOf(e), dirs[i])
  {
    match e
    case TransformOp(t) => Ok(t)
    case OtherOp => Err(TypeError)
    case _ =>
      if i < |dirs| then New(One(RegOf(e)), One(dirs[i]), None) else Err(IndexError)
  }

  /** The loop over the entries from position `i` on. */
  function ResolveFrom(entries: seq<Operand>, dirs: seq<string>, i: nat): (r: Result<seq<Transform>>)
    requires i <= |entries|
    requires forall j :: 0 <= j < |dirs| ==> IsDirection(dirs[j])
    ensures r.Ok? <==> forall j :: i <= j < |entries| ==> Resolvable(entries[j], j, dirs)
    ensures r.Ok? ==> |r.value| == |entries| - i
    ensures r.Ok? ==> forall j :: i <= j < |entries| ==>
                        (entries[j].TransformOp? ==> r.value[j - i] == entries[j].t)
    ensures r.Ok? ==> forall j :: i <= j < |entries| ==>
                        (!entries[j].TransformOp? ==> r.value[j - i] == PathTransform(RegOf(entries[j]), dirs[j]))
    ensures r.Err? ==> exists j :: i <= j < |entries| && !Resolvable(entries[j], j, dirs)
                                   && (forall k :: i <= k < j ==> Resolvable(entries[k], k, dirs))
                                   && r.error == FailureOf(entries[j])
    decreases |entries| - i
  {
    if i == |entries| then Ok([])
    else
      var head :- ResolveOne(entries[i], i, dirs);
      var rest :- ResolveFrom(entries, dirs, i + 1);
      Ok([head] + rest)
  }

  /** The argument handling of `xform_cmtk(points, transforms, inverse)`: the
      list of transforms to chain, or the exception the loop raises at the
      first entry that does not get through. */
  function XformTransforms(entries: seq<Operand>, inverse: InverseArg): (r: Result<seq<Transform>>)
    ensures var dirs := Directions(|entries|, inverse);
            && (r.Ok? <==> forall j :: 0 <= j < |entries| ==> Resolvable(entries[j], j, dirs))
            && (r.Ok? ==> |r.value| == |entries|
                          && (forall j :: 0 <= j < |entries| && entries[j].TransformOp? ==> r.value[j] == entries[j].t)
                          && (forall j :: 0 <= j < |entries| && !entries[j].TransformOp? ==>
                                r.value[j] == PathTransform(RegOf(entries[j]), dirs[j])))
  {
    ResolveFrom(entries, Directions(|entries|, inverse), 0)
  }

  /** A single boolean is broadcast: every path gets a transform, all with the
      same direction, "inverse" exactly when the boolean is true; only an entry
      that is neither a transform nor a path makes the call raise
      `TypeError`. */
  lemma BroadcastInverse(entries: seq<Operand>, inverse: bool)
    ensures var r := XformTransforms(entries, OneFlag(inverse));
            && (r.Ok? <==> forall j :: 0 <= j < |entries| ==> !entries[j].OtherOp?)
            && (r.Ok? ==> forall j :: 0 <= j < |entries| && !entries[j].TransformOp? ==>
                            r.value[j] == PathTransform(RegOf(entries[j]), DirectionOf(inverse)))
            && (r.Err? ==> r.error == TypeError)
  {
    var dirs := Directions(|entries|, OneFlag(inverse));
    var r := XformTransforms(entries, OneFlag(inverse));
    if r.Err? {
      var j :| 0 <= j < |entries| && !Resolvable(entries[j], j, dirs) && r.error == FailureOf(entries[j]);
      assert entries[j].OtherOp?;
    }
  }

  /** The entry a registration is given as: a `str` or a `pathlib.Path`. */
  function EntryOf(reg: Reg): (e: Operand)
    ensures (e.StrOp? || e.PathOp?) && RegOf(e) == reg
  {
    match reg
    case StrReg(s) => StrOp(s)
    case PathReg(p) => PathOp(p)
  }

  /** Every path, given as a `str` or as a `pathlib.Path`, becomes with
      `inverse=True` the negation of the transform it becomes with
      `inverse=False`. */
  lemma InverseIsNegation(regs: seq<Reg>)
    ensures var entries := seq(|regs|, i requires 0 <= i < |regs| => EntryOf(regs[i]));
            var fwd := XformTransforms(entries, OneFlag(false));
            var inv := XformTransforms(entries, OneFlag(true));
            && fwd.Ok? && inv.Ok?
            && forall i :: 0 <= i < |regs| ==> Negate(fwd.value[i]) == Ok(inv.value[i])
  {
    var entries := seq(|regs|, i requires 0 <= i < |regs| => EntryOf(regs[i]));
    BroadcastInverse(entries, false);
    BroadcastInverse(entries, true);
    var fwd := XformTransforms(entries, OneFlag(false)).value;
    var inv := XformTransforms(entries, OneFlag(true)).value;
    forall i | 0 <= i < |regs|
      ensures Negate(fwd[i]) == Ok(inv[i])
    {
      var n := Negate(fwd[i]).value;
      assert fwd[i] == PathTransform(regs[i], Forward);
      assert inv[i] == PathTransform(regs[i], Inverse);
      assert n.regs == [regs[i]];
      assert n.directions == [Inverse];
    }
  }

  /** The `inverse` argument leaves entries that already are transforms
      untouched. */
  lemma TransformsIgnoreInverse(ts: seq<Transform>, a: InverseArg, b: InverseArg)
    ensures var entries := seq(|ts|, i requires 0 <= i < |ts| => TransformOp(ts[i]));
            XformTransforms(entries, a) == XformTransforms(entries, b) == Ok(ts)
  {
    var entries := seq(|ts|, i requires 0 <= i < |ts| => TransformOp(ts[i]));
    var ra := XformTransforms(entries, a);
    var rb := XformTransforms(entries, b);
    assert forall j :: 0 <= j < |entries| ==> Resolvable(entries[j], j, Directions(|entries|, a));
    assert forall j :: 0 <= j < |entries| ==> Resolvable(entries[j], j, Directions(|entries|, b));
    assert ra.value == ts;
    assert rb.value == ts;
  }

  /** The same text given as a `str` and as a `pathlib.Path` gives two
      transforms that pass the same arguments to the tool but are not equal:
      the registration keeps the kind it was given as. */
  lemma PathKeepsKind(path: string, inverse: bool)
    ensures var fromStr := XformTransforms([StrOp(path)], OneFlag(inverse));
            var fromPath := XformTransforms([PathOp(path)], OneFlag(inverse));
            && fromStr.Ok? && fromPath.Ok?
            && Regargs(fromStr.value[0]) == Regargs(fromPath.value[0])
            && !Eq(fromStr.value[0], TransformOp(fromPath.value[0]))
  {
    BroadcastInverse([StrOp(path)], inverse);
    BroadcastInverse([PathOp(path)], inverse);
    var a := XformTransforms([StrOp(path)], OneFlag(inverse)).value[0];
    var b := XformTransforms([PathOp(path)], OneFlag(inverse)).value[0];
    assert a.regs[0] == StrReg(path) && b.regs[0] == PathReg(path);
    assert RegargsOf(a.regs, a.directions) == RegargsOf(b.regs, b.directions);
  }
}
