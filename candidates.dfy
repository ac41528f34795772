/** The candidate paths each platform proposes (index.ts): fixed lists, two
    derived paths per Java VM directory on macOS, and one `javaw.exe` per
    registry `JavaHome` on Windows. Directory listings and registry lookups
    are inputs; the order in which they arrive is whatever order they are
    given in. */
module Candidates {
  import opened Wrappers
  import opened Utils

  const DefaultJava: string := "java"

  const LinuxJavas: seq<string> := [
    DefaultJava,
    "/opt/java/bin/java",
    "/usr/bin/java"
  ]

  const MacJavas: seq<string> := [
    DefaultJava,
    "/Applications/Xcode.app/Contents/Applications/Application Loader.app/Contents/MacOS/itms/java/bin/java",
    "/Library/Internet Plug-Ins/JavaAppletPlugin.plugin/Contents/Home/bin/java",
    "/System/Library/Frameworks/JavaVM.framework/Versions/Current/Commands/java"
  ]

  /** The fixed Windows list, with "(x76)" and "(x66)" exactly as written. */
  const WindowsJavas: seq<string> := [
    "C:/Program Files/Java/jre8/bin/javaw.exe",
    "C:/Program Files/Java/jre7/bin/javaw.exe",
    "C:/Program Files/Java/jre6/bin/javaw.exe",
    "C:/Program Files (x86)/Java/jre8/bin/javaw.exe",
    "C:/Program Files (x76)/Java/jre7/bin/javaw.exe",
    "C:/Program Files (x66)/Java/jre6/bin/javaw.exe",
    DefaultJava
  ]

  const JavaRegKeys: seq<string> := [
    "SOFTWARE\\JavaSoft\\Java Runtime Environment",
    "SOFTWARE\\JavaSoft\\Java Development Kit"
  ]

  /** Linux proposes the shared default, then two absolute paths. */
  lemma LinuxList()
    ensures LinuxJavas == ["java", "/opt/java/bin/java", "/usr/bin/java"]
  {
  }

  /** macOS proposes the shared default, then the Xcode, applet-plugin and
      JavaVM-framework binaries. */
  lemma MacList()
    ensures |MacJavas| == 4 && MacJavas[0] == "java"
    ensures MacJavas[1] == "/Applications/Xcode.app/Contents/Applications/Application Loader.app/Contents/MacOS/itms/java/bin/java"
    ensures MacJavas[2] == "/Library/Internet Plug-Ins/JavaAppletPlugin.plugin/Contents/Home/bin/java"
    ensures MacJavas[3] == "/System/Library/Frameworks/JavaVM.framework/Versions/Current/Commands/java"
  {
  }

  /** Windows proposes six `javaw.exe` paths, the fifth and sixth under the
      misspelt `(x76)` and `(x66)` folders, then the shared default; the
      registry is read under the JRE key and then the JDK key. */
  lemma WindowsList()
    ensures |WindowsJavas| == 7 && WindowsJavas[6] == "java"
    ensures WindowsJavas[..3] == ["C:/Program Files/Java/jre8/bin/javaw.exe",
                                  "C:/Program Files/Java/jre7/bin/javaw.exe",
                                  "C:/Program Files/Java/jre6/bin/javaw.exe"]
    ensures WindowsJavas[3] == "C:/Program Files (x86)/Java/jre8/bin/javaw.exe"
    ensures WindowsJavas[4] == "C:/Program Files (x76)/Java/jre7/bin/javaw.exe"
    ensures WindowsJavas[5] == "C:/Program Files (x66)/Java/jre6/bin/javaw.exe"
    ensures JavaRegKeys == ["SOFTWARE\\JavaSoft\\Java Runtime Environment",
                            "SOFTWARE\\JavaSoft\\Java Development Kit"]
  {
  }

  /** `path.join(dir, part)` as far as inserting one separator `sep` goes. */
  function JoinPath(sep: char, dir: string, part: string): (r: string)
    ensures dir != [] && dir[|dir| - 1] != sep ==> r == dir + [sep] + part
  {
    if dir == [] then part
    else if dir[|dir| - 1] == sep then dir + part
    else dir + [sep] + part
  }

  // ---------------------------------------------------------------------------
  // macOS

  /** `Promise.all`: every value, or a rejection as soon as one rejects. */
  function All<T>(ps: seq<Option<T>>): (r: Option<seq<T>>)
    ensures r.None? <==> exists i :: 0 <= i < |ps| && ps[i].None?
    ensures r.Some? ==> |r.value| == |ps| && forall i :: 0 <= i < |ps| ==> ps[i] == Some(r.value[i])
  {
    if ps == [] then Some([])
    else match (ps[0], All(ps[1..]))
      case (Some(v), Some(vs)) => Some([v] + vs)
      case _ => None
  }

  /** `allDirectories(root).map(dir => [join(dir, first), join(dir, second)]).then(flatten)`,
      given the listing of `root` (`None` where it rejects). */
  function DirCandidates(listing: Option<seq<string>>, first: string, second: string): Option<seq<string>> {
    match listing
    case None => None
    case Some(dirs) =>
      Some(Flatten(seq(|dirs|, i requires 0 <= i < |dirs| =>
                         [JoinPath('/', dirs[i], first), JoinPath('/', dirs[i], second)])))
  }

  /** `findJavasMac()`, given the directories `allDirectories` finds under
      `/Library/Java/JavaVirtualMachines/` and under
      `/System/Library/Java/JavaVirtualMachines/`. */
  function FindJavasMac(library: Option<seq<string>>, system: Option<seq<string>>): Option<seq<string>> {
    match All([Some(MacJavas),
               DirCandidates(library, "Contents/Home/bin/java", "Contents/Home/jre/bin/java"),
               DirCandidates(system, "Contents/Home/bin/java", "Contents/Commands/java")])
    case None => None
    case Some(parts) => Some(Flatten(parts))
  }

  lemma {:induction false} PairsLength(arr: seq<seq<string>>)
    requires forall i :: 0 <= i < |arr| ==> |arr[i]| == 2
    ensures TotalLength(arr) == 2 * |arr|
  {
    if arr != [] {
      PairsLength(arr[1..]);
    }
  }

  /** Two candidates per directory, in directory order. */
  lemma DirCandidatesLayout(dirs: seq<string>, first: string, second: string)
    ensures DirCandidates(Some(dirs), first, second).Some?
    ensures var r := DirCandidates(Some(dirs), first, second).value;
      |r| == 2 * |dirs|
      && forall k :: 0 <= k < |dirs| ==>
           r[2 * k] == JoinPath('/', dirs[k], first) && r[2 * k + 1] == JoinPath('/', dirs[k], second)
  {
    var arr := seq(|dirs|, i requires 0 <= i < |dirs| =>
                     [JoinPath('/', dirs[i], first), JoinPath('/', dirs[i], second)]);
    PairsLength(arr);
    forall k | 0 <= k < |dirs|
      ensures Flatten(arr)[2 * k] == JoinPath('/', dirs[k], first)
      ensures Flatten(arr)[2 * k + 1] == JoinPath('/', dirs[k], second)
    {
      PairsLength(arr[..k]);
      FlattenAt(arr, k, 0);
      FlattenAt(arr, k, 1);
    }
  }

  /** The macOS candidates: the four fixed paths, then two per directory
      under `/Library`, then two per directory under `/System`; a listing
      that fails rejects the whole enumeration. */
  lemma MacLayout(library: Option<seq<string>>, system: Option<seq<string>>)
    ensures FindJavasMac(library, system).None? <==> library.None? || system.None?
    ensures library.Some? && system.Some? ==>
      var r := FindJavasMac(library, system).value;
      var lib, sys := library.value, system.value;
      |r| == 4 + 2 * |lib| + 2 * |sys|
      && r[..4] == MacJavas
      && (forall k :: 0 <= k < |lib| ==>
            r[4 + 2 * k] == JoinPath('/', lib[k], "Contents/Home/bin/java")
            && r[4 + 2 * k + 1] == JoinPath('/', lib[k], "Contents/Home/jre/bin/java"))
      && (forall k :: 0 <= k < |sys| ==>
            r[4 + 2 * |lib| + 2 * k] == JoinPath('/', sys[k], "Contents/Home/bin/java")
            && r[4 + 2 * |lib| + 2 * k + 1] == JoinPath('/', sys[k], "Contents/Commands/java"))
  {
    var ps := [Some(MacJavas),
               DirCandidates(library, "Contents/Home/bin/java", "Contents/Home/jre/bin/java"),
               DirCandidates(system, "Contents/Home/bin/java", "Contents/Commands/java")];
    assert All(ps).None? <==> ps[1].None? || ps[2].None?;
    if library.Some? && system.Some? {
      var lib, sys := library.value, system.value;
      DirCandidatesLayout(lib, "Contents/Home/bin/java", "Contents/Home/jre/bin/java");
      DirCandidatesLayout(sys, "Contents/Home/bin/java", "Contents/Commands/java");
      var parts := All(ps).value;
      var l, s := ps[1].value, ps[2].value;
      assert parts == [MacJavas, l, s];
      FlattenParts3(MacJavas, l, s);
    }
  }

  lemma FlattenParts3(x: seq<string>, y: seq<string>, z: seq<string>)
    ensures Flatten([x, y, z]) == x + y + z
  {
    assert [x, y, z][1..] == [y, z];
    assert [y, z][1..] == [z];
    assert [z][1..] == [];
    assert Flatten([z]) == z + [] == z;
    assert Flatten([y, z]) == y + z;
  }

  lemma FlattenParts5(v: seq<string>, w: seq<string>, x: seq<string>, y: seq<string>, z: seq<string>)
    ensures Flatten([v, w, x, y, z]) == v + w + x + y + z
  {
    assert [v, w, x, y, z][1..] == [w, x, y, z];
    assert [w, x, y, z][1..] == [x, y, z];
    FlattenParts3(x, y, z);
  }

  // ---------------------------------------------------------------------------
  // Windows

  /** What `key.keys(...)` and the `JavaHome` reads deliver for one key and
      registry view: an error, or the `JavaHome` values of its subkeys in
      the order their callbacks complete. */
  datatype KeyLookup = KeysError | Subkeys(javaHomes: seq<string>)

  /** `join(javaHome, "bin", "javaw.exe")` with the Windows separator. */
  function JavawPath(javaHome: string): (r: string)
    ensures javaHome != [] && javaHome[|javaHome| - 1] != '\\' ==> r == javaHome + "\\bin\\javaw.exe"
  {
    JoinPath('\\', JoinPath('\\', javaHome, "bin"), "javaw.exe")
  }

  /** The candidates one key and view contribute. */
  function KeyCandidates(lookup: KeyLookup): seq<string> {
    match lookup
    case KeysError => []
    case Subkeys(homes) => seq(|homes|, i requires 0 <= i < |homes| => JavawPath(homes[i]))
  }

  /** The accumulation in `findJavasFromRegistryKey`: one `javaw.exe` path
      pushed per `JavaHome` found; a failing `keys` call resolves with `[]`. */
  method FindJavasFromRegistryKey(lookup: KeyLookup) returns (javaVersions: seq<string>)
    ensures lookup.KeysError? ==> javaVersions == []
    ensures lookup.Subkeys? ==>
              |javaVersions| == |lookup.javaHomes|
              && forall i :: 0 <= i < |javaVersions| ==> javaVersions[i] == JavawPath(lookup.javaHomes[i])
    ensures javaVersions == KeyCandidates(lookup)
  {
    javaVersions := [];
    match lookup
    case KeysError =>
    case Subkeys(homes) =>
      for i := 0 to |homes|
        invariant |javaVersions| == i
        invariant forall k :: 0 <= k < i ==> javaVersions[k] == JavawPath(homes[k])
      {
        javaVersions := javaVersions + [JavawPath(homes[i])];
      }
  }

  /** The results pushed for `keys`, each key queried in the 64-bit view and then the 32-bit one. */
  function RegistryResults(registry: (string, string) -> KeyLookup, keys: seq<string>): seq<seq<string>> {
    if keys == [] then []
    else
      var key := keys[|keys| - 1];
      RegistryResults(registry, keys[..|keys| - 1])
        + [KeyCandidates(registry(key, "x64")), KeyCandidates(registry(key, "x86"))]
  }

  /** The Windows candidates: the fixed list, then the JRE key in the
      64-bit and the 32-bit view, then the JDK key in both views. */
  function WindowsCandidates(registry: (string, string) -> KeyLookup): seq<string> {
    WindowsJavas
      + KeyCandidates(registry(JavaRegKeys[0], "x64"))
      + KeyCandidates(registry(JavaRegKeys[0], "x86"))
      + KeyCandidates(registry(JavaRegKeys[1], "x64"))
      + KeyCandidates(registry(JavaRegKeys[1], "x86"))
  }

  /** `findJavasWindows()`: the fixed list and, for each registry key, the
      two lookups pushed in turn, flattened. */
  method FindJavasWindows(registry: (string, string) -> KeyLookup) returns (candidates: seq<string>)
    ensures candidates == WindowsCandidates(registry)
  {
    var javaVersionPromises: seq<seq<string>> := [WindowsJavas];
    for k := 0 to |JavaRegKeys|
      invariant javaVersionPromises == [WindowsJavas] + RegistryResults(registry, JavaRegKeys[..k])
    {
      assert JavaRegKeys[..k + 1][..k] == JavaRegKeys[..k];
      var x64 := FindJavasFromRegistryKey(registry(JavaRegKeys[k], "x64"));
      javaVersionPromises := javaVersionPromises + [x64];
      var x86 := FindJavasFromRegistryKey(registry(JavaRegKeys[k], "x86"));
      javaVersionPromises := javaVersionPromises + [x86];
    }
    var a := KeyCandidates(registry(JavaRegKeys[0], "x64"));
    var b := KeyCandidates(registry(JavaRegKeys[0], "x86"));
    var c := KeyCandidates(registry(JavaRegKeys[1], "x64"));
    var d := KeyCandidates(registry(JavaRegKeys[1], "x86"));
    assert JavaRegKeys[..2] == JavaRegKeys;
    assert JavaRegKeys[..2][..1] == JavaRegKeys[..1];
    assert JavaRegKeys[..1][..0] == [];
    assert RegistryResults(registry, JavaRegKeys[..1]) == [a, b];
    assert RegistryResults(registry, JavaRegKeys[..2]) == [a, b, c, d];
    assert javaVersionPromises == [WindowsJavas, a, b, c, d];
    FlattenParts5(WindowsJavas, a, b, c, d);
    candidates := Flatten(javaVersionPromises);
  }

  /** Every `JavaHome` found under either key in either view yields a
      candidate, whatever the other lookups do; the fixed list comes first. */
  lemma RegistryHomeFound(registry: (string, string) -> KeyLookup, key: string, view: string, home: string)
    requires key in JavaRegKeys && (view == "x64" || view == "x86")
    requires registry(key, view).Subkeys? && home in registry(key, view).javaHomes
    ensures JavawPath(home) in WindowsCandidates(registry)
    ensures WindowsCandidates(registry)[..7] == WindowsJavas
  {
    var homes := registry(key, view).javaHomes;
    var i :| 0 <= i < |homes| && homes[i] == home;
    var part := KeyCandidates(registry(key, view));
    assert part[i] == JavawPath(home);
    InLaterPart(WindowsJavas,
                KeyCandidates(registry(JavaRegKeys[0], "x64")), KeyCandidates(registry(JavaRegKeys[0], "x86")),
                KeyCandidates(registry(JavaRegKeys[1], "x64")), KeyCandidates(registry(JavaRegKeys[1], "x86")),
                part, JavawPath(home));
  }

  /** An element of one of the four registry parts is in the concatenation,
      which starts with the fixed list. */
  lemma InLaterPart(fixed: seq<string>, a: seq<string>, b: seq<string>, c: seq<string>, d: seq<string>,
                    part: seq<string>, x: string)
    requires part == a || part == b || part == c || part == d
    requires x in part
    ensures x in fixed + a + b + c + d
    ensures (fixed + a + b + c + d)[..|fixed|] == fixed
  {
    assert fixed + a + b + c + d == fixed + (a + b + c + d);
  }
}
