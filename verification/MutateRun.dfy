/** mutate.go: what one run over a file produces, one mutant after another. */
module MutateRun {
  import opened Options
  import opened FileSystem
  import opened Text
  import opened CopyUtils
  import opened GoAst
  import opened Mutators
  import opened Walk
  import opened Names

  /** One call of `mutate`, with what follows from its arguments worked out beforehand: `parts` are the components of
      the file path, `sites` the mutations of an operator in the order in which the walk meets them (see `ValidRun`),
      `dirOf` the directory of a mutant (see `NamesMutants`), and `copy` what a call of `copyProject` does to the file
      system (see `CopiesProject`). `render` stands for printing and formatting a tree, which may fail; `depth` is the
      recursion depth available to the copy. */
  datatype Config = Config(
    operators: seq<Operator>, root: Path, folder: string, overwrite: bool, file: string, parts: Path,
    info: Info, tree: NodeId, sites: Operator -> seq<Mutation>, render: Ast -> Option<string>,
    dirOf: (Operator, nat) -> Path, copy: (FS, Path) -> FS, depth: nat)

  datatype MutantInfo = MutantInfo(originalFileRelativePath: string, mutantDir: Path, mutationFile: Path)

  /** The file system and the list `mutantInfos`. */
  datatype Progress = Progress(fs: FS, infos: seq<MutantInfo>)

  function MutantName(cfg: Config, op: Operator, id: nat): string {
    BuildMutantName(RegisteredName(op), cfg.file, id)
  }

  function DirOf(cfg: Config, op: Operator, id: nat): Path {
    cfg.dirOf(op, id)
  }

  /** `copyProject` puts a mutant into the directory of its name in the mutant folder. */
  ghost predicate NamesMutants(cfg: Config) {
    forall op, id {:trigger MutantName(cfg, op, id)} ::
      cfg.dirOf(op, id) == MutantDir(cfg.root, cfg.folder, MutantName(cfg, op, id))
  }

  function FileIn(cfg: Config, dir: Path): Path {
    dir + cfg.parts
  }

  /** `copyProject`; an error is logged and otherwise ignored. */
  function CopyProject(cfg: Config, fs: FS, dir: Path): FS {
    match CopyRecursive(cfg.depth, cfg.overwrite, fs, cfg.root, dir, cfg.folder)
    case Done(after) => after
    case Failed(after) => after
    case OutOfFuel => fs
  }

  /** Nothing about the protocol depends on how projects are copied; what a run leaves on disk does. */
  ghost predicate CopiesProject(cfg: Config) {
    forall fs, dir {:trigger CopyProject(cfg, fs, dir)} :: cfg.copy(fs, dir) == CopyProject(cfg, fs, dir)
  }

  /** `saveAST` followed by the bookkeeping: the mutant is listed only if its file was written. */
  function Save(cfg: Config, before: Progress, dir: Path, ast: Ast): Progress {
    match cfg.render(ast)
    case None => before
    case Some(text) =>
      match WriteFile(before.fs, FileIn(cfg, dir), text)
      case None => before
      case Some(after) =>
        Progress(after, before.infos + [MutantInfo(cfg.file, dir, FileIn(cfg, dir))])
  }

  function Produce(cfg: Config, before: Progress, op: Operator, id: nat, mutated: Ast): Progress {
    var dir := DirOf(cfg, op, id);
    Save(cfg, Progress(cfg.copy(before.fs, dir), before.infos), dir, mutated)
  }

  // ----- the whole run, as a sequence of such steps -----

  ghost predicate ValidRun(cfg: Config, ast: Ast) {
    && Parsed(ast) && cfg.tree in ast.nodes
    && (forall op {:trigger SitesOf(op, ast, cfg.info, cfg.tree)} ::
          cfg.sites(op) == SitesOf(op, ast, cfg.info, cfg.tree))
  }

  function Sites(cfg: Config, ast: Ast, op: Operator): seq<Mutation>
    requires ValidRun(cfg, ast)
  {
    cfg.sites(op)
  }

  /** The mutations of an operator are those the walk meets. */
  lemma SitesAreMet(cfg: Config, ast: Ast, op: Operator)
    requires ValidRun(cfg, ast)
    ensures Sites(cfg, ast, op) == SitesOf(op, ast, cfg.info, cfg.tree)
  {
  }

  /** Each fits the original and can be undone. */
  lemma SiteFits(cfg: Config, ast: Ast, op: Operator, k: nat)
    requires ValidRun(cfg, ast) && k < |Sites(cfg, ast, op)|
    ensures Captured(ast, Sites(cfg, ast, op)[k])
    ensures Reset(Change(ast, cfg.info, Sites(cfg, ast, op)[k]), Sites(cfg, ast, op)[k]) == ast
  {
    SitesAreMet(cfg, ast, op);
    SitesRestore(op, ast, cfg.info, cfg.tree, Sites(cfg, ast, op)[k]);
  }

  /** The original with exactly the `k`-th mutation of the operator applied. */
  function MutantTree(cfg: Config, ast: Ast, op: Operator, k: nat): Ast
    requires ValidRun(cfg, ast) && k < |Sites(cfg, ast, op)|
  {
    SiteFits(cfg, ast, op, k);
    Change(ast, cfg.info, Sites(cfg, ast, op)[k])
  }

  function AfterSites(cfg: Config, ast: Ast, start: Progress, op: Operator, n: nat): Progress
    requires ValidRun(cfg, ast) && n <= |Sites(cfg, ast, op)|
  {
    if n == 0 then start
    else Produce(cfg, AfterSites(cfg, ast, start, op, n - 1), op, n - 1, MutantTree(cfg, ast, op, n - 1))
  }

  function AfterOps(cfg: Config, ast: Ast, start: Progress, k: nat): Progress
    requires ValidRun(cfg, ast) && k <= |cfg.operators|
  {
    if k == 0 then start
    else
      var op := cfg.operators[k - 1];
      AfterSites(cfg, ast, AfterOps(cfg, ast, start, k - 1), op, |Sites(cfg, ast, op)|)
  }

  /** The number of mutations of the first `k` operators. */
  function SiteCount(cfg: Config, ast: Ast, k: nat): nat
    requires ValidRun(cfg, ast) && k <= |cfg.operators|
  {
    if k == 0 then 0 else SiteCount(cfg, ast, k - 1) + |Sites(cfg, ast, cfg.operators[k - 1])|
  }
}
