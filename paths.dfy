/**
 * The application's directory layout. A path is the sequence of its
 * components; `p / name` appends one component.
 */
module Paths {
  import opened Text
  import opened Wrappers

  type Path = seq<string>

  /** pathlib's `p / name` for a plain name (no separator, not absolute). */
  function Join(p: Path, name: string): (r: Path)
    ensures |r| == |p| + 1 && r[..|p|] == p && r[|p|] == name
  {
    p + [name]
  }

  /** `str(p)`: the components joined by `/` (an absolute path starts with an empty component). */
  function Render(p: Path): string
  {
    if |p| == 0 then "" else if |p| == 1 then p[0] else Render(p[..|p| - 1]) + "/" + p[|p| - 1]
  }

  /** `q` lies under `p` (or is `p`). */
  predicate Under(p: Path, q: Path) {
    p <= q
  }

  /** `PathManager` after `_setup_base_directories`. */
  class PathManager {
    var appDir: Path
    var userDataDir: Path
    var cacheDir: Path
    var configDir: Path
    var gamesDir: Path
    var modsDir: Path
    var soundpacksDir: Path
    var fontsDir: Path
    var backupsDir: Path
    var dbDir: Path
    var tempDir: Path
    var logsDir: Path

    /** The fixed layout under `app_dir`. */
    ghost predicate Layout()
      reads this
    {
      && userDataDir == Join(appDir, "data")
      && cacheDir == Join(appDir, "cache")
      && configDir == Join(appDir, "config")
      && gamesDir == Join(userDataDir, "games")
      && modsDir == Join(userDataDir, "mods")
      && soundpacksDir == Join(userDataDir, "soundpacks")
      && fontsDir == Join(userDataDir, "fonts")
      && backupsDir == Join(userDataDir, "backups")
      && dbDir == Join(cacheDir, "db")
      && tempDir == Join(cacheDir, "temp")
      && logsDir == Join(appDir, "logs")
    }

    /** `_setup_base_directories(app_name)`, with the home directory as a parameter. */
    constructor (home: Path, appName: string)
      ensures appDir == Join(home, Lower(appName))
      ensures Layout()
    {
      var app := Join(home, Lower(appName));
      var data := Join(app, "data");
      var cache := Join(app, "cache");
      appDir := app;
      userDataDir := data;
      cacheDir := cache;
      configDir := Join(app, "config");
      gamesDir := Join(data, "games");
      modsDir := Join(data, "mods");
      soundpacksDir := Join(data, "soundpacks");
      fontsDir := Join(data, "fonts");
      backupsDir := Join(data, "backups");
      dbDir := Join(cache, "db");
      tempDir := Join(cache, "temp");
      logsDir := Join(app, "logs");
    }

    /** The list `_create_directory_structure` walks, in its order. */
    function Directories(): (ds: seq<Path>)
      reads this
      ensures |ds| == 12
    {
      [appDir, userDataDir, cacheDir, configDir, gamesDir, modsDir,
       soundpacksDir, fontsDir, backupsDir, dbDir, tempDir, logsDir]
    }

    function GetGameInstallDir(game: string, installName: string): (p: Path)
      reads this
      ensures |p| == |gamesDir| + 2 && p[..|gamesDir|] == gamesDir
      ensures p[|gamesDir|] == game && p[|gamesDir| + 1] == installName
    {
      Join(Join(gamesDir, game), installName)
    }

    function GetGameUserDir(game: string): (p: Path)
      reads this
      ensures p == GetGameInstallDir(game, "userdata")
    {
      Join(Join(gamesDir, game), "userdata")
    }

    function GetBackupDir(game: string): (p: Path)
      reads this
      ensures |p| == |backupsDir| + 1 && p[..|backupsDir|] == backupsDir && p[|backupsDir|] == game
    {
      Join(backupsDir, game)
    }

    function GetCacheFile(filename: string): (p: Path)
      reads this
      ensures |p| == |cacheDir| + 1 && p[..|cacheDir|] == cacheDir && p[|cacheDir|] == filename
    {
      Join(cacheDir, filename)
    }

    function GetTempFile(filename: string): (p: Path)
      reads this
      ensures |p| == |tempDir| + 1 && p[..|tempDir|] == tempDir && p[|tempDir|] == filename
    {
      Join(tempDir, filename)
    }

    /**
     * `_create_directory_structure` over an abstract file system: `fs` is the
     * set of existing directories and `failing` those whose `mkdir` raises.
     * The first failure is re-raised; otherwise all twelve directories exist.
     */
    method CreateDirectoryStructure(fs: set<Path>, failing: set<Path>) returns (r: Result<set<Path>>)
      ensures r.Ok? <==> forall i :: 0 <= i < 12 ==> Directories()[i] !in failing
      ensures r.Ok? ==> r.value == fs + set i | 0 <= i < 12 :: Directories()[i]
      ensures r.Err? ==> r.error == "OSError"
    {
      var ds := Directories();
      var created := fs;
      for i := 0 to |ds|
        invariant created == fs + set j | 0 <= j < i :: ds[j]
        invariant forall j :: 0 <= j < i ==> ds[j] !in failing
      {
        if ds[i] in failing {
          return Err("OSError");
        }
        created := created + {ds[i]};
      }
      return Ok(created);
    }
  }

  /** Every directory of the layout lies under `app_dir`, and the games directory under the data directory. */
  lemma LayoutUnderAppDir(pm: PathManager)
    requires pm.Layout()
    ensures forall i :: 0 <= i < 12 ==> Under(pm.appDir, pm.Directories()[i])
    ensures Under(pm.userDataDir, pm.gamesDir) && Under(pm.cacheDir, pm.tempDir)
  {
    var a := pm.appDir;
    assert Under(a, pm.userDataDir) && Under(a, pm.cacheDir);
    assert Under(pm.userDataDir, pm.gamesDir) && Under(pm.cacheDir, pm.dbDir) && Under(pm.cacheDir, pm.tempDir);
    assert Under(pm.userDataDir, pm.modsDir) && Under(pm.userDataDir, pm.soundpacksDir);
    assert Under(pm.userDataDir, pm.fontsDir) && Under(pm.userDataDir, pm.backupsDir);
  }

  /** The twelve directories of the layout are pairwise different. */
  lemma LayoutDistinct(pm: PathManager)
    requires pm.Layout()
    ensures forall i, j :: 0 <= i < j < 12 ==> pm.Directories()[i] != pm.Directories()[j]
  {
    var a := pm.appDir;
    var ds := pm.Directories();
    forall i, j | 0 <= i < j < 12 ensures ds[i] != ds[j] {
      if |ds[i]| == |ds[j]| {
        // same depth: they differ in the last component or in the parent's last component
        var n := |ds[i]|;
        assert n == |a| || n == |a| + 1 || n == |a| + 2;
        if n == |a| + 2 {
          assert ds[i][|a|] != ds[j][|a|] || ds[i][|a| + 1] != ds[j][|a| + 1];
        } else if n == |a| + 1 {
          assert ds[i][|a|] != ds[j][|a|];
        }
      }
    }
  }
}
