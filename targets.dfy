/**
 * The three selection menus, their on-screen labels, the parsed release
 * manifest, and how a menu selection resolves to one tarball URL.
 */
module Targets {
  import opened Results

  /** Top-level menu (`Menu`). */
  datatype Menu = Zig | Quit

  /** Operating-system menu (`MenuInsideMenu`). */
  datatype System = Linux | Mac

  /** Architecture menu, only shown for Mac (`Architecture`). */
  datatype Architecture = X86_64Macos | Aarch64Macos

  /** Options in the order each menu lists them (`VARIANTS`, `SYSTEMS`, `ARCHI`). */
  const MenuVariants: seq<Menu> := [Zig, Quit]
  const Systems: seq<System> := [Linux, Mac]
  const Architectures: seq<Architecture> := [X86_64Macos, Aarch64Macos]

  /** The `Display` texts the prompts show (typos included). */
  function MenuLabel(m: Menu): string
  {
    match m
    case Zig => "Dowload latest Zig binary"
    case Quit => "Quit"
  }

  function SystemLabel(s: System): string
  {
    match s
    case Linux => "Linux"
    case Mac => "Mac"
  }

  function ArchitectureLabel(a: Architecture): string
  {
    match a
    case X86_64Macos => "x86_64-macos"
    case Aarch64Macos => "aarch64_macos"
  }

  /** Each menu offers every option once, and no two options look alike. */
  lemma MenusListDistinctLabels()
    ensures forall m: Menu :: m in MenuVariants
    ensures forall s: System :: s in Systems
    ensures forall a: Architecture :: a in Architectures
    ensures MenuLabel(Zig) != MenuLabel(Quit)
    ensures SystemLabel(Linux) != SystemLabel(Mac)
    ensures ArchitectureLabel(X86_64Macos) != ArchitectureLabel(Aarch64Macos)
  {
    forall m: Menu ensures m in MenuVariants {
      assert MenuVariants[if m == Zig then 0 else 1] == m;
    }
    forall s: System ensures s in Systems {
      assert Systems[if s == Linux then 0 else 1] == s;
    }
    forall a: Architecture ensures a in Architectures {
      assert Architectures[if a == X86_64Macos then 0 else 1] == a;
    }
  }

  /** The part of the release index the installer decodes (`Obj`, `Master`, `Platform`). */
  datatype Platform = Platform(tarball: string)
  datatype Master = Master(x86_64_macos: Platform, aarch64_macos: Platform, x86_64_linux: Platform)
  datatype Obj = Obj(master: Master)

  /** The JSON key each `Master` field is decoded from (the serde renames). */
  function Field(master: Master, key: string): Option<Platform>
  {
    if key == "x86_64-macos" then Some(master.x86_64_macos)
    else if key == "aarch64-macos" then Some(master.aarch64_macos)
    else if key == "x86_64-linux" then Some(master.x86_64_linux)
    else None
  }

  /** What the user can ask to install. */
  datatype Target = LinuxX86_64 | MacOs(arch: Architecture)

  /** The platform key of the release index that holds each target's build. */
  function ManifestKey(t: Target): string
  {
    match t
    case LinuxX86_64 => "x86_64-linux"
    case MacOs(X86_64Macos) => "x86_64-macos"
    case MacOs(Aarch64Macos) => "aarch64-macos"
  }

  /** The string `main` hands to `get_latest` for each target. */
  function Dispatch(t: Target): string
  {
    match t
    case LinuxX86_64 => "linux"
    case MacOs(Aarch64Macos) => "arm"
    case MacOs(X86_64Macos) => "x86"
  }

  /** The strings `get_latest` accepts; any other makes it exit with status 1. */
  const Dispatches: set<string> := {"linux", "arm", "x86"}

  /** `get_latest`'s match: the tarball URL a dispatch string selects, if any. */
  function Resolve(master: Master, archi: string): (url: Option<string>)
    ensures url.Some? <==> archi in Dispatches
    ensures url.Some? ==>
      url.value in {master.x86_64_linux.tarball, master.aarch64_macos.tarball, master.x86_64_macos.tarball}
  {
    match archi
    case "linux" => Some(master.x86_64_linux.tarball)
    case "arm" => Some(master.aarch64_macos.tarball)
    case "x86" => Some(master.x86_64_macos.tarball)
    case _ => None
  }

  /**
   * Every target main can select resolves, and to the tarball stored under
   * that target's own platform key; distinct targets use distinct keys.
   */
  lemma ResolveSelectsTargetTarball(master: Master, t: Target)
    ensures Field(master, ManifestKey(t)).Some?
    ensures Resolve(master, Dispatch(t)) == Some(Field(master, ManifestKey(t)).value.tarball)
  {
  }

  /** Dispatch strings and platform keys each identify one target. */
  lemma TargetsAreDistinguished(t: Target, u: Target)
    ensures Dispatch(t) == Dispatch(u) ==> t == u
    ensures ManifestKey(t) == ManifestKey(u) ==> t == u
    ensures Dispatch(t) in Dispatches
  {
  }

  /**
   * The Aarch64 menu label uses an underscore where the release index key
   * uses a dash; the x86_64 label matches its key.
   */
  lemma ArchitectureLabelQuirk()
    ensures ArchitectureLabel(X86_64Macos) == ManifestKey(MacOs(X86_64Macos))
    ensures ArchitectureLabel(Aarch64Macos) != ManifestKey(MacOs(Aarch64Macos))
  {
  }

  /** The answer a prompt gives: a choice, or the user cancels (Esc / Ctrl-C). */
  datatype Prompt<T> = Answered(value: T) | Cancelled

  /** Outcome of `main`'s menus: stop with status 0, or install a target. */
  datatype Selection = Stop | Picked(target: Target)

  /** `main`'s three prompts; the architecture is asked only for Mac. */
  function Select(menu: Prompt<Menu>, system: Prompt<System>, arch: Prompt<Architecture>): (s: Selection)
    ensures s.Picked? <==>
      menu == Answered(Zig) && system.Answered? && (system.value == Mac ==> arch.Answered?)
    ensures s.Picked? ==> (s.target == LinuxX86_64 <==> system.value == Linux)
    ensures s.Picked? && s.target.MacOs? ==> arch == Answered(s.target.arch)
  {
    match menu
    case Cancelled => Stop
    case Answered(Quit) => Stop
    case Answered(Zig) =>
      match system
      case Cancelled => Stop
      case Answered(Linux) => Picked(LinuxX86_64)
      case Answered(Mac) =>
        match arch
        case Cancelled => Stop
        case Answered(a) => Picked(MacOs(a))
  }
}
