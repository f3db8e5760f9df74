/**
  The choice of command script in `RunBundler(ProjectItem)`: which `.cmd`
  file of the project's `bundler` directory, if any, a saved, added or
  renamed project item runs.
 */
module CommandSelection {
  import opened Wrappers
  import opened Strings
  import opened FileTypes

  /**
    The first `bundler` sub-directory of the directory holding the project
    file, as the filesystem shows it: its full name, and for each command
    file name that a lookup in it finds, the full name of the file found.
   */
  datatype BundlerDirectory = BundlerDirectory(fullName: string, commandFiles: map<string, string>)

  /** The containing project, reduced to the result of its `bundler` directory lookup. */
  datatype Project = Project(bundlerDirectory: Option<BundlerDirectory>)

  /** A project item: its name, its containing project and the names of its files. */
  datatype ProjectItem = ProjectItem(name: string, containingProject: Option<Project>, fileNames: seq<string>)

  const GenericCommand: string := "bundler.cmd"

  /** The command dedicated to a file type, for the three types that have one. */
  function SpecificCommand(t: FileType): (c: Option<string>)
    ensures c.Some? <==> t in {Less, Css, Js}
    ensures c.Some? ==> c.value != GenericCommand
  {
    match t
    case Less => Some("bundler-less.cmd")
    case Css => Some("bundler-css.cmd")
    case Js => Some("bundler-js.cmd")
    case _ => None
  }

  /** Some file of the item lies under the bundler directory (its name starts with the directory's full name). */
  predicate InsideBundlerDirectory(fileNames: seq<string>, dir: BundlerDirectory) {
    exists i :: 0 <= i < |fileNames| && StartsWith(fileNames[i], dir.fullName)
  }

  /**
    The `switch` and its fall-through: the type's own command when the
    directory has it, otherwise `bundler.cmd` when the directory has that,
    otherwise no command.
   */
  function CommandFor(t: FileType, dir: BundlerDirectory): (r: Option<string>)
    ensures SpecificCommand(t).Some? && SpecificCommand(t).value in dir.commandFiles ==>
      r == Some(dir.commandFiles[SpecificCommand(t).value])
    ensures (SpecificCommand(t).None? || SpecificCommand(t).value !in dir.commandFiles) ==>
      (r.Some? <==> GenericCommand in dir.commandFiles)
    ensures (SpecificCommand(t).None? || SpecificCommand(t).value !in dir.commandFiles) && r.Some? ==>
      r.value == dir.commandFiles[GenericCommand]
  {
    var specific := SpecificCommand(t);
    if specific.Some? && specific.value in dir.commandFiles then Some(dir.commandFiles[specific.value])
    else if GenericCommand in dir.commandFiles then Some(dir.commandFiles[GenericCommand])
    else None
  }

  /** The item passes every check that comes before the choice of command. */
  predicate ItemQualifies(item: ProjectItem) {
    && item.containingProject.Some?
    && DetermineFileType(item.name) != Unknown
    && item.containingProject.value.bundlerDirectory.Some?
    && !InsideBundlerDirectory(item.fileNames, item.containingProject.value.bundlerDirectory.value)
  }

  /**
    `RunBundler(ProjectItem)` up to the call of `RunBundler(string)`: the full
    name of the command to run, or None where the source returns without
    running anything.
   */
  function SelectCommand(item: Option<ProjectItem>): (r: Option<string>)
    ensures item.None? ==> r.None?
    ensures item.Some? && item.value.containingProject.None? ==> r.None?
    ensures item.Some? && DetermineFileType(item.value.name) == Unknown ==> r.None?
    ensures (item.Some? && item.value.containingProject.Some?
             && item.value.containingProject.value.bundlerDirectory.None?) ==> r.None?
    ensures (item.Some? && item.value.containingProject.Some?
             && item.value.containingProject.value.bundlerDirectory.Some?
             && InsideBundlerDirectory(item.value.fileNames, item.value.containingProject.value.bundlerDirectory.value))
            ==> r.None?
    ensures item.Some? && ItemQualifies(item.value) ==>
      r == CommandFor(DetermineFileType(item.value.name), item.value.containingProject.value.bundlerDirectory.value)
  {
    match item
    case None => None
    case Some(it) =>
      if ItemQualifies(it) then
        CommandFor(DetermineFileType(it.name), it.containingProject.value.bundlerDirectory.value)
      else None
  }

  /** Whatever is chosen is the full name of a command file that the lookup found in the bundler directory. */
  lemma SelectedCommandIsFound(item: Option<ProjectItem>)
    ensures SelectCommand(item).Some? ==>
      var dir := item.value.containingProject.value.bundlerDirectory.value;
      var t := DetermineFileType(item.value.name);
      || (GenericCommand in dir.commandFiles && SelectCommand(item).value == dir.commandFiles[GenericCommand])
      || (SpecificCommand(t).Some? && SpecificCommand(t).value in dir.commandFiles
          && SelectCommand(item).value == dir.commandFiles[SpecificCommand(t).value])
  {
  }

  /**
    Sass and CoffeeScript files, and every type whose own command is missing,
    fall back to exactly the choice made for a file of type Other.
   */
  lemma FallbackIsGenericCommand(t: FileType, dir: BundlerDirectory)
    requires SpecificCommand(t).None? || SpecificCommand(t).value !in dir.commandFiles
    ensures CommandFor(t, dir) == CommandFor(Other, dir)
    ensures CommandFor(Other, dir) == (if GenericCommand in dir.commandFiles then Some(dir.commandFiles[GenericCommand]) else None)
  {
  }

  /** Saving one of the bundler's own files (for example a command script) never runs a command. */
  lemma FilesUnderBundlerDirectoryAreIgnored(item: ProjectItem, dir: BundlerDirectory, i: nat)
    requires item.containingProject == Some(Project(Some(dir)))
    requires i < |item.fileNames| && StartsWith(item.fileNames[i], dir.fullName)
    ensures SelectCommand(Some(item)).None?
  {
  }

  /**
    A `.less` item of a project whose bundler directory has `bundler-less.cmd`,
    and none of whose files lies under that directory, runs the Less script.
   */
  lemma LessPrefersItsOwnCommand(item: ProjectItem, dir: BundlerDirectory)
    requires EndsWith(item.name, ".less")
    requires item.containingProject == Some(Project(Some(dir)))
    requires !InsideBundlerDirectory(item.fileNames, dir)
    requires "bundler-less.cmd" in dir.commandFiles
    ensures SelectCommand(Some(item)) == Some(dir.commandFiles["bundler-less.cmd"])
  {
    assert MatchesAny(item.name, LessExtensions) by {
      assert EndsWith(item.name, LessExtensions[0]);
    }
  }
}
