/** The classes of trusimd.hpp as objects: the thread-local current_kernel
    and trusimd_errno as a context whose methods are the var operators, and
    the kernel object with its `finished` flag. Each method is proved to
    do what the matching FrontSpec function says. */
module Frontend {
  import opened TypeDesc
  import opened ErrorCodes
  import KS = KernelSpec
  import FS = FrontSpec
  import Builder

  /** current_kernel (trusimd.hpp:70) and trusimd_errno, as one object
      rather than thread-local globals. */
  class Context {
    var current: Builder.Kernel?
    var errno: int

    /** No session yet, and no error. */
    constructor ()
      ensures current == null && errno == 0
    {
      current := null;
      errno := 0;
    }

    /** The current session and trusimd_errno, as the front end's world. */
    function World(): FS.World
      reads this, current
      requires current != null
    {
      FS.World(current.State(), errno)
    }

    /** There is a current session, and it is well formed. */
    predicate Open()
      reads this, current
    {
      current != null && KS.Wf(current.State())
    }

    /** What both kernel constructors do to the context
        (trusimd.hpp:237-243, 251-258): a current session is ended and
        dropped, then a new one is opened on the arguments up to the first
        notype and made current. */
    method Replace(name: string, ts: seq<Type>) returns (session: Builder.Kernel)
      requires NoType in ts
      modifies this, current
      ensures fresh(session) && session.State() == KS.Create(name, ts)
      ensures current == session && errno == old(errno)
      ensures old(current) != null ==> old(current).State() == KS.End(old(current.State()))
    {
      if current != null {
        current.End();
        current := null;
      }
      session := new Builder.Kernel.Create(name, ts);
      current := session;
    }

    /** TRUSIMD_THROW_IF_ERROR_INT (trusimd.hpp:53-58) after a C entry point
        that came back with res: trusimd_errno as the entry point left it,
        and a throw of it when the value returned is -1. */
    method Wrap(res: Result<int>) returns (o: FS.Outcome<int>)
      modifies this
      ensures current == old(current)
      ensures errno == FS.ErrnoAfter(res, old(errno)) && o == FS.ThrowIfErrorInt(FS.CReturn(res), errno)
    {
      var ret := -1;
      match res {
        case Ok(v) => ret := v;
        case Err(code) => errno := code;
      }
      if ret == -1 {
        o := FS.Thrown(FS.RuntimeError(errno));
      } else {
        o := FS.Done(ret);
      }
    }

    /** var(t) (trusimd.hpp:112-114). */
    method MakeVar(t: Type) returns (o: FS.Outcome<FS.Var>)
      requires Open()
      modifies this, current
      ensures current == old(current)
      ensures (World(), o) == FS.MakeVar(old(World()), t)
    {
      var nv := current.Var(t);
      match FS.ThrowIfErrorInt(nv, errno)
      case Thrown(e) => o := FS.Thrown(e);
      case Done(id) => o := FS.Done(FS.Var(id, FS.Unindexed));
    }

    /** var::operator() (trusimd.hpp:121-129). */
    method Eval(v: FS.Var) returns (o: FS.Outcome<int>)
      requires Open() && FS.Valid(current.State(), v)
      modifies this, current
      ensures current == old(current)
      ensures (World(), o) == FS.Eval(old(World()), v)
    {
      if v.indexId == FS.Unindexed {
        return FS.Done(v.id);
      }
      var res := current.Load(v.id, v.indexId);
      o := Wrap(res);
    }

    /** var::operator= (trusimd.hpp:135-144). */
    method Assign(target: FS.Var, other: FS.Var) returns (o: FS.Outcome<FS.Var>)
      requires Open() && FS.Valid(current.State(), target) && FS.Valid(current.State(), other)
      modifies this, current
      ensures current == old(current)
      ensures (World(), o) == FS.Assign(old(World()), target, other)
    {
      var v := Eval(other);
      if v.Thrown? {
        return FS.Thrown(v.ex);
      }
      var res;
      if target.indexId == FS.Unindexed {
        res := current.Assign(target.id, v.value);
      } else {
        res := current.Store(target.id, target.indexId, v.value);
      }
      var o2 := Wrap(res);
      o := if o2.Thrown? then FS.Thrown(o2.ex) else FS.Done(target);
    }

    /** var::operator+ (trusimd.hpp:146-151), the operand evaluated first
        being the left one when leftFirst holds. */
    method Plus(a: FS.Var, b: FS.Var, leftFirst: bool) returns (o: FS.Outcome<FS.Var>)
      requires Open() && FS.Valid(current.State(), a) && FS.Valid(current.State(), b)
      modifies this, current
      ensures current == old(current)
      ensures (World(), o) == FS.Plus(old(World()), a, b, leftFirst)
    {
      var x := Eval(if leftFirst then a else b);
      if x.Thrown? {
        return FS.Thrown(x.ex);
      }
      var y := Eval(if leftFirst then b else a);
      if y.Thrown? {
        return FS.Thrown(y.ex);
      }
      var res := current.Add(if leftFirst then x.value else y.value, if leftFirst then y.value else x.value);
      if res.Err? {
        return FS.Thrown(FS.IntThrown(res.code));
      }
      match FS.ThrowIfErrorInt(res.value, errno)
      case Thrown(e) => o := FS.Thrown(e);
      case Done(id) => o := FS.Done(FS.Var(id, FS.Unindexed));
    }

    /** var::operator[](var) (trusimd.hpp:153-158). */
    method Index(a: FS.Var, index: FS.Var) returns (o: FS.Outcome<FS.Var>)
      requires Open() && FS.Valid(current.State(), a) && FS.Valid(current.State(), index)
      modifies this, current
      ensures current == old(current)
      ensures (World(), o) == FS.Index(old(World()), a, index)
    {
      var x := Eval(a);
      if x.Thrown? {
        return FS.Thrown(x.ex);
      }
      var i := Eval(index);
      if i.Thrown? {
        return FS.Thrown(i.ex);
      }
      o := FS.Done(FS.Var(x.value, i.value));
    }

    /** var::operator[](gid) (trusimd.hpp:160-166). */
    method IndexGid(a: FS.Var) returns (o: FS.Outcome<FS.Var>)
      requires Open() && FS.Valid(current.State(), a)
      modifies this, current
      ensures current == old(current)
      ensures (World(), o) == FS.IndexGid(old(World()), a)
    {
      var x := Eval(a);
      if x.Thrown? {
        return FS.Thrown(x.ex);
      }
      var g := current.GetGlobalId();
      match FS.ThrowIfErrorInt(g, errno)
      case Thrown(e) => o := FS.Thrown(e);
      case Done(gv) => o := FS.Done(FS.Var(x.value, gv));
    }

    /** arg(i) (trusimd.hpp:319-324). */
    method Arg(i: int) returns (o: FS.Outcome<FS.Var>)
      requires Open()
      ensures o == FS.Arg(World(), i)
    {
      var n := current.NbKernelArgs();
      if i < 0 || i >= n {
        return FS.Thrown(FS.RuntimeError(EINDEX));
      }
      var id := current.GetKernelArg(i);
      o := FS.Done(FS.Var(id, FS.Unindexed));
    }
  }

  /** class kernel (trusimd.hpp:225-299): its session, and whether it has
      been ended through this object. */
  class KernelObject {
    var finished: bool
    var k: Builder.Kernel

    /** The object's fields once a constructor has its session. */
    constructor Of(session: Builder.Kernel)
      ensures k == session && !finished
    {
      k := session;
      finished := false;
    }

    /** The C++11 constructor (trusimd.hpp:235-247): a current session is
        ended first, then a new one is opened on the arguments and
        trusimd_notype, and becomes current. The `finished = true` the
        source writes when it ends a session lands on the object under
        construction and is overwritten at once, so the object that owned
        the ended session is not told. */
    static method Open(ctx: Context, name: string, ts: seq<Type>) returns (obj: KernelObject)
      modifies ctx, ctx.current
      ensures fresh(obj) && fresh(obj.k) && obj.k.State() == KS.Create(name, ts + [NoType]) && !obj.finished
      ensures ctx.current == obj.k && ctx.errno == old(ctx.errno)
      ensures old(ctx.current) != null ==> old(ctx.current).State() == KS.End(old(ctx.current.State()))
    {
      assert NoType in ts + [NoType];
      var session := ctx.Replace(name, ts + [NoType]);
      obj := new KernelObject.Of(session);
    }

    /** The constructor as evidently intended: the object whose session is
        current, prev, is marked finished when that session is ended, so
        nothing ends it again. */
    static method OpenReplacing(ctx: Context, prev: KernelObject?, name: string, ts: seq<Type>) returns (obj: KernelObject)
      requires prev != null ==> prev.k == ctx.current
      modifies ctx, ctx.current, prev
      ensures fresh(obj) && fresh(obj.k) && obj.k.State() == KS.Create(name, ts + [NoType]) && !obj.finished
      ensures ctx.current == obj.k && ctx.errno == old(ctx.errno)
      ensures old(ctx.current) != null ==> old(ctx.current).State() == KS.End(old(ctx.current.State()))
      ensures prev != null ==> prev.finished && prev.k == old(prev.k)
    {
      if prev != null {
        prev.finished := true;
      }
      assert NoType in ts + [NoType];
      var session := ctx.Replace(name, ts + [NoType]);
      obj := new KernelObject.Of(session);
    }

    /** The block operator() and operator<< start with
        (trusimd.hpp:273-276, 281-284, 302-305): end the session unless
        this object already has. */
    method EndOnce()
      requires KS.Wf(k.State())
      modifies this, k
      ensures k == old(k)
      ensures (k.State(), finished) == FS.Finish(old(k.State()), old(finished))
    {
      if !finished {
        k.End();
        finished := true;
      }
      KS.EndSpec(old(k.State()));
    }

    /** operator<< (trusimd.hpp:301-314): the three texts of the ended
        session, as one string. */
    method Show() returns (out: string)
      requires KS.Wf(k.State())
      modifies this, k
      ensures k == old(k)
      ensures (k.State(), finished) == FS.Finish(old(k.State()), old(finished))
      ensures out == FS.Shown(k.State())
    {
      EndOnce();
      var cu, cl, ir := k.GetTexts();
      out := FS.Rule + "CUDA:\n\n" + cu + "\n\n" +
        FS.Rule + "OpenCL:\n\n" + cl + "\n\n" +
        FS.Rule + "LLVM IR:\n\n" + ir + "\n\n";
    }

    /** ~kernel (trusimd.hpp:293-296): whatever session is current, there
        is none afterwards. */
    method Destroy(ctx: Context)
      modifies ctx
      ensures ctx.current == null && ctx.errno == old(ctx.errno)
    {
      ctx.current := null;
    }
  }

  /** `kernel a(...); kernel b(...); std::cout << a;` as written: b's
      constructor ends a's session, a's flag still says it is not ended, so
      operator<< ends it a second time (KernelSpec.EndTwice: the C kernels
      close one loop too many). */
  method OpenThenShow(ctx: Context, a: KernelObject, name: string, ts: seq<Type>) returns (b: KernelObject, out: string)
    requires ctx.current == a.k && !a.finished && KS.Wf(a.k.State())
    modifies ctx, a, a.k
    ensures a.k.State() == KS.End(KS.End(old(a.k.State())))
    ensures out == FS.Shown(a.k.State())
  {
    b := KernelObject.Open(ctx, name, ts);
    KS.EndSpec(old(a.k.State()));
    out := a.Show();
  }

  /** The same sequence with the corrected constructor: a's session is
      ended exactly once. */
  method OpenReplacingThenShow(ctx: Context, a: KernelObject, name: string, ts: seq<Type>) returns (b: KernelObject, out: string)
    requires ctx.current == a.k && !a.finished && KS.Wf(a.k.State())
    modifies ctx, a, a.k
    ensures a.k.State() == KS.End(old(a.k.State()))
    ensures out == FS.Shown(a.k.State())
  {
    b := KernelObject.OpenReplacing(ctx, a, name, ts);
    KS.EndSpec(old(a.k.State()));
    out := a.Show();
  }
}
