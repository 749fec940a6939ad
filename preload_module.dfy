/**
 * The module the generator writes (generate-preload-config-icons.mjs, lines
 * 166-182): the embedded `collections`, a module-level `preloaded` flag, and
 * `preloadIconifyConfigIcons`, which registers every collection once.
 */
module PreloadModule {

  /**
   * The shared icon registry behind `addCollection`; `added` records every
   * collection handed to it, in order.
   */
  class Registry<C> {
    var added: seq<C>

    constructor ()
      ensures added == []
    {
      added := [];
    }

    method AddCollection(c: C)
      modifies this
      ensures added == old(added) + [c]
    {
      added := added + [c];
    }
  }

  /** One loaded instance of the generated module. */
  class PreloadConfigIcons<C> {
    const collections: seq<C>
    const registry: Registry<C>
    var preloaded: bool

    /** Module evaluation: `let preloaded = false`. */
    constructor (collections: seq<C>, registry: Registry<C>)
      ensures this.collections == collections && this.registry == registry
      ensures !preloaded
    {
      this.collections := collections;
      this.registry := registry;
      preloaded := false;
    }

    /**
     * preloadIconifyConfigIcons: the first call adds every collection once, in
     * order, and sets the flag; a later call returns at once and adds nothing.
     */
    method Preload()
      modifies this, registry
      ensures preloaded
      ensures old(preloaded) ==> registry.added == old(registry.added)
      ensures !old(preloaded) ==> registry.added == old(registry.added) + collections
    {
      if preloaded {
        return;
      }
      preloaded := true;
      for i := 0 to |collections|
        invariant preloaded
        invariant registry.added == old(registry.added) + collections[..i]
      {
        registry.AddCollection(collections[i]);
      }
    }
  }

  /** Calling the preload function twice leaves the registry as one call does. */
  method PreloadTwice<C>(m: PreloadConfigIcons<C>)
    requires !m.preloaded
    modifies m, m.registry
    ensures m.preloaded
    ensures m.registry.added == old(m.registry.added) + m.collections
  {
    m.Preload();
    ghost var once := m.registry.added;
    m.Preload();
    assert m.registry.added == once;
  }
}
