/** The `Keybinds` script module (start.go, `loadModules`) and the default global key table
    registered at startup (start.go, `cmds`). Three independent tables map a key descriptor to
    a callback; binding a key again overwrites the earlier binding. */
module Keybinds {

  /** A bound callback: one of the host commands named in the default table, or any other
      script function (an opaque identifier). */
  datatype Callback = Command(name: string) | ScriptFunction(id: nat)

  class KeybindModule {
    var global: map<string, Callback>
    var playlist: map<string, Callback>
    var queue: map<string, Callback>

    /** `global = {}`, `playlist = {}`, `queue = {}` */
    constructor ()
      ensures global == map[] && playlist == map[] && queue == map[]
    {
      global, playlist, queue := map[], map[], map[];
    }

    /** `def_g(kb, f)`: binds `kb` in the global table only. */
    method DefG(kb: string, f: Callback)
      modifies this
      ensures global == old(global)[kb := f]
      ensures playlist == old(playlist) && queue == old(queue)
    {
      global := global[kb := f];
    }

    /** `def_p(kb, f)`: binds `kb` in the playlist table only. */
    method DefP(kb: string, f: Callback)
      modifies this
      ensures playlist == old(playlist)[kb := f]
      ensures global == old(global) && queue == old(queue)
    {
      playlist := playlist[kb := f];
    }

    /** `def_q(kb, f)`: binds `kb` in the queue table only. */
    method DefQ(kb: string, f: Callback)
      modifies this
      ensures queue == old(queue)[kb := f]
      ensures global == old(global) && playlist == old(playlist)
    {
      queue := queue[kb := f];
    }
  }

  /** The table `cmds` of start.go: one-character key to host command name. */
  const DefaultCommands: map<char, string> := map[
    'q' := "quit",
    ' ' := "toggle_pause",
    '+' := "volume_up",
    '=' := "volume_up",
    '-' := "volume_down",
    '_' := "volume_down",
    'n' := "skip",
    ':' := "command_search",
    '?' := "toggle_help",
    'f' := "forward",
    'F' := "forward_fast",
    'b' := "rewind",
    'B' := "rewind_fast",
    'm' := "repl",
    'T' := "switch_lyric",
    'c' := "show_colors"
  ]

  /** `table` holds the binding of the one-character descriptor of every key in `keys` to the
      command `cmds` names for it. */
  ghost predicate BindsAll(table: map<string, Callback>, cmds: map<char, string>, keys: set<char>)
    requires keys <= cmds.Keys
  {
    forall c :: c in keys ==> [c] in table && table[[c]] == Command(cmds[c])
  }

  /** `table` agrees with `before` on every descriptor other than those of `keys`, and has no
      other descriptors. */
  ghost predicate ElsewhereAsBefore(table: map<string, Callback>, before: map<string, Callback>, keys: set<char>)
  {
    && (forall s :: s in table ==> s in before || (|s| == 1 && s[0] in keys))
    && (forall s :: s in before && !(|s| == 1 && s[0] in keys) ==> s in table && table[s] == before[s])
  }

  /** The registration loop over `cmds`: `Keybinds.def_g("%c", cmdName)` for every entry, in the
      unspecified order of a Go map range. The other two tables are left alone. At startup
      `cmds` is `DefaultCommands`. */
  method RegisterCommands(kb: KeybindModule, cmds: map<char, string>)
    modifies kb
    ensures BindsAll(kb.global, cmds, cmds.Keys)
    ensures ElsewhereAsBefore(kb.global, old(kb.global), cmds.Keys)
    ensures kb.playlist == old(kb.playlist) && kb.queue == old(kb.queue)
  {
    var remaining := cmds.Keys;
    ghost var done: set<char> := {};
    while remaining != {}
      invariant done <= cmds.Keys && remaining == cmds.Keys - done
      invariant BindsAll(kb.global, cmds, done)
      invariant ElsewhereAsBefore(kb.global, old(kb.global), done)
      invariant kb.playlist == old(kb.playlist) && kb.queue == old(kb.queue)
      decreases remaining
    {
      var key :| key in remaining;
      kb.DefG([key], Command(cmds[key]));
      forall c | c in done ensures [c] in kb.global && kb.global[[c]] == Command(cmds[c]) {
        assert [c] != [key] by { assert [c][0] != [key][0]; }
      }
      done := done + {key};
      remaining := remaining - {key};
    }
  }

  /** A fresh keybind module after the registration loop over `cmds`: the global table holds
      exactly the one-character descriptors of the keys of `cmds`, one binding per key. */
  method RegisterFresh(cmds: map<char, string>) returns (kb: KeybindModule)
    ensures fresh(kb)
    ensures forall c :: c in cmds ==> [c] in kb.global && kb.global[[c]] == Command(cmds[c])
    ensures kb.global.Keys == Descriptors(cmds.Keys) && |kb.global| == |cmds|
    ensures kb.playlist == map[] && kb.queue == map[]
  {
    kb := new KeybindModule();
    RegisterCommands(kb, cmds);
    RegisteredKeys(map[], kb.global, cmds);
    assert kb.global.Keys == Descriptors(cmds.Keys);
    DescriptorsCount(cmds.Keys);
  }

  /** The registration of the default table at startup, on the module the configuration files
      have already run against (they may have called `def_g`, `def_p` and `def_q`):
      `+`/`=` and `-`/`_` are aliases of one command each and `q` quits, whatever the
      configuration bound there; every default key is bound; every descriptor that is not a
      default key keeps its configured binding; the other two tables are unchanged. */
  method StartupBindings(kb: KeybindModule)
    modifies kb
    ensures "+" in kb.global && "=" in kb.global && kb.global["+"] == kb.global["="] == Command("volume_up")
    ensures "-" in kb.global && "_" in kb.global && kb.global["-"] == kb.global["_"] == Command("volume_down")
    ensures "q" in kb.global && kb.global["q"] == Command("quit")
    ensures kb.global.Keys == old(kb.global).Keys + Descriptors(DefaultCommands.Keys)
    ensures |kb.global| >= |DefaultCommands|
    ensures forall s :: s in old(kb.global) && s !in Descriptors(DefaultCommands.Keys) ==> s in kb.global && kb.global[s] == old(kb.global)[s]
    ensures kb.playlist == old(kb.playlist) && kb.queue == old(kb.queue)
  {
    ghost var before := kb.global;
    RegisterCommands(kb, DefaultCommands);
    DefaultAliases(kb.global);
    RegisteredTable(before, kb.global, DefaultCommands);
  }

  /** What the registration loop leaves in a table, in terms of its keys: the descriptors of
      `cmds` are added to those bound before, there are at least as many bindings as commands,
      and a descriptor that is not one of the commands' keys keeps its earlier binding. */
  lemma RegisteredTable(before: map<string, Callback>, after: map<string, Callback>, cmds: map<char, string>)
    requires BindsAll(after, cmds, cmds.Keys) && ElsewhereAsBefore(after, before, cmds.Keys)
    ensures after.Keys == before.Keys + Descriptors(cmds.Keys)
    ensures |after| >= |cmds|
    ensures forall s :: s in before && s !in Descriptors(cmds.Keys) ==> s in after && after[s] == before[s]
  {
    RegisteredKeys(before, after, cmds);
    DescriptorsCount(cmds.Keys);
    SubsetCount(Descriptors(cmds.Keys), after.Keys);
    forall s | s in before && s !in Descriptors(cmds.Keys) ensures s in after && after[s] == before[s] {
      DescriptorIff(s, cmds.Keys);
    }
  }

  /** The keys bound after the registration loop. */
  lemma RegisteredKeys(before: map<string, Callback>, after: map<string, Callback>, cmds: map<char, string>)
    requires BindsAll(after, cmds, cmds.Keys) && ElsewhereAsBefore(after, before, cmds.Keys)
    ensures after.Keys == before.Keys + Descriptors(cmds.Keys)
  {
    forall s | s in after && s !in before ensures s in Descriptors(cmds.Keys) {
      assert s == [s[0]];
    }
    forall s | s in before ensures s in after {
      if |s| == 1 && s[0] in cmds.Keys {
        assert s == [s[0]];
      }
    }
    forall s | s in Descriptors(cmds.Keys) ensures s in after {
      var c :| c in cmds.Keys && s == [c];
    }
  }

  /** The descriptors of `keys` are exactly the one-character strings of those keys. */
  lemma DescriptorIff(s: string, keys: set<char>)
    ensures s in Descriptors(keys) <==> |s| == 1 && s[0] in keys
  {
    if |s| == 1 && s[0] in keys {
      assert s == [s[0]];
    }
  }

  /** A subset has at most as many elements. */
  lemma SubsetCount<T>(a: set<T>, b: set<T>)
    requires a <= b
    ensures |a| <= |b|
  {
    assert b == a + (b - a);
  }

  /** A table that binds every default key to its command binds the aliases to one command. */
  lemma DefaultAliases(g: map<string, Callback>)
    requires forall c :: c in DefaultCommands ==> [c] in g && g[[c]] == Command(DefaultCommands[c])
    ensures "+" in g && "=" in g && g["+"] == g["="] == Command("volume_up")
    ensures "-" in g && "_" in g && g["-"] == g["_"] == Command("volume_down")
    ensures "q" in g && g["q"] == Command("quit")
  {
    assert '+' in DefaultCommands && '=' in DefaultCommands && '-' in DefaultCommands;
    assert '_' in DefaultCommands && 'q' in DefaultCommands;
    assert "+" == ['+'] && "=" == ['='] && "-" == ['-'] && "_" == ['_'] && "q" == ['q'];
  }

  /** The one-character descriptors of a set of keys. */
  ghost function Descriptors(keys: set<char>): set<string> {
    set c | c in keys :: [c]
  }

  /** Distinct keys have distinct descriptors, so there are as many descriptors as keys. */
  lemma {:induction false} DescriptorsCount(keys: set<char>)
    ensures |Descriptors(keys)| == |keys|
    decreases keys
  {
    if keys != {} {
      var c :| c in keys;
      DescriptorsCount(keys - {c});
      assert Descriptors(keys) == Descriptors(keys - {c}) + {[c]};
    }
  }
}
