/**
 * The plug-in hooks (`HookCollection` in Markdown.Editor.js): named functions
 * an application can replace (`set`) or wrap (`chain`).
 */
module Hooks {

  /** What a hook takes and returns: the editor passes text, `returnFalse` answers `false`. */
  datatype HookValue = Text(s: string) | Flag(b: bool)

  /** A hook: the built-in `identity` and `returnFalse`, a function set by the application, or a chain. */
  datatype Hook =
    | Identity
    | ReturnFalse
    | Custom(f: HookValue -> HookValue)
    | Chained(original: Hook, f: HookValue -> HookValue)

  /** Calling a hook with its first argument (the extra arguments a chain passes on are not modelled). */
  function Apply(h: Hook, v: HookValue): HookValue {
    match h
    case Identity => v
    case ReturnFalse => Flag(false)
    case Custom(f) => f(v)
    case Chained(original, f) => f(Apply(original, v))
  }

  /** The hook `chain` installs: `f` itself over `identity`, otherwise `f` after the original. */
  function ChainHook(original: Hook, f: HookValue -> HookValue): (r: Hook)
    ensures forall v :: Apply(r, v) == f(Apply(original, v))
  {
    if original.Identity? then Custom(f) else Chained(original, f)
  }

  /** The hooks of one editor, by name. */
  class HookCollection {
    var hooks: map<string, Hook>

    constructor ()
      ensures hooks == map[]
    {
      hooks := map[];
    }

    /** `addNoop`: the hook does nothing until chained or set. */
    method AddNoop(name: string)
      modifies this
      ensures hooks == old(hooks)[name := Identity]
    {
      hooks := hooks[name := Identity];
    }

    /** `addFalse`: the hook answers `false` until set. */
    method AddFalse(name: string)
      modifies this
      ensures hooks == old(hooks)[name := ReturnFalse]
    {
      hooks := hooks[name := ReturnFalse];
    }

    /** `set`: replaces a hook added before; a name never added throws (`thrown`) and changes nothing. */
    method Set(name: string, f: HookValue -> HookValue) returns (thrown: bool)
      modifies this
      ensures thrown <==> name !in old(hooks)
      ensures hooks == if thrown then old(hooks) else old(hooks)[name := Custom(f)]
    {
      if name !in hooks {
        return true;
      }
      hooks := hooks[name := Custom(f)];
      return false;
    }

    /** `chain`: wraps a hook added before so `f` runs on its result; a name never added throws. */
    method Chain(name: string, f: HookValue -> HookValue) returns (thrown: bool)
      modifies this
      ensures thrown <==> name !in old(hooks)
      ensures hooks.Keys == old(hooks).Keys
      ensures !thrown ==> forall v :: Apply(hooks[name], v) == f(Apply(old(hooks)[name], v))
      ensures forall n :: n in hooks && n != name ==> hooks[n] == old(hooks)[n]
    {
      if name !in hooks {
        return true;
      }
      var original := hooks[name];
      if original.Identity? {
        hooks := hooks[name := Custom(f)];
      } else {
        hooks := hooks[name := Chained(original, f)];
      }
      return false;
    }
  }
}
