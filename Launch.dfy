/**
 * Expansion of the kernel launch template (processArguments). The template's
 * arguments and working directory may contain the placeholders
 * `{dotnet_path}`, `{working_dir}` and `{global_storage_path}`; the first
 * expanded argument is the command to run and the rest are its arguments.
 */
module Launch {
  import opened Wrappers

  const DotnetPathPlaceholder: string := "{dotnet_path}"
  const WorkingDirPlaceholder: string := "{working_dir}"
  const GlobalStoragePathPlaceholder: string := "{global_storage_path}"

  datatype LaunchTemplate = LaunchTemplate(args: seq<string>, workingDirectory: string)

  /** The values the placeholders stand for. */
  datatype Substitutions = Substitutions(workingDir: string, dotnetPath: string, globalStoragePath: string)

  datatype ProcessStart = ProcessStart(
    command: string,
    args: seq<string>,
    workingDirectory: string,
    env: map<string, string>)

  /** The placeholder `s` starts with, as (its value, its length). */
  function PlaceholderAt(s: string, subs: Substitutions): (r: Option<(string, nat)>)
    ensures r.Some? ==> 0 < r.value.1 <= |s| && s[0] == '{'
  {
    if DotnetPathPlaceholder <= s then Some((subs.dotnetPath, |DotnetPathPlaceholder|))
    else if WorkingDirPlaceholder <= s then Some((subs.workingDir, |WorkingDirPlaceholder|))
    else if GlobalStoragePathPlaceholder <= s then Some((subs.globalStoragePath, |GlobalStoragePathPlaceholder|))
    else None
  }

  /** No placeholder begins anywhere in `s`. */
  predicate Literal(s: string, subs: Substitutions) {
    forall i :: 0 <= i < |s| ==> PlaceholderAt(s[i..], subs).None?
  }

  /**
   * Substitution as this model defines it: every placeholder is replaced in
   * one left-to-right pass, and the substituted values are not scanned again.
   */
  function Expand(s: string, subs: Substitutions): (r: string)
    ensures '{' !in s ==> r == s
    decreases |s|
  {
    if s == [] then []
    else match PlaceholderAt(s, subs)
      case Some((value, n)) => value + Expand(s[n..], subs)
      case None => [s[0]] + Expand(s[1..], subs)
  }

  function ProcessArguments(template: LaunchTemplate, workingDir: string, dotnetPath: string,
                            globalStoragePath: string): (r: Option<ProcessStart>)
    ensures r.None? <==> template.args == []
    ensures r.Some? ==>
      var subs := Substitutions(workingDir, dotnetPath, globalStoragePath);
      && r.value.command == Expand(template.args[0], subs)
      && |r.value.args| == |template.args| - 1
      && (forall i :: 0 <= i < |r.value.args| ==> r.value.args[i] == Expand(template.args[i + 1], subs))
      && r.value.workingDirectory == Expand(template.workingDirectory, subs)
      && r.value.env == map[]
  {
    if template.args == [] then None
    else
      var subs := Substitutions(workingDir, dotnetPath, globalStoragePath);
      Some(ProcessStart(
        Expand(template.args[0], subs),
        seq(|template.args| - 1, i requires 0 <= i < |template.args| - 1 => Expand(template.args[i + 1], subs)),
        Expand(template.workingDirectory, subs),
        map[]))
  }

  /** Text without placeholders comes through expansion unchanged. */
  lemma {:induction false} ExpandLiteral(s: string, subs: Substitutions)
    requires Literal(s, subs)
    ensures Expand(s, subs) == s
    decreases |s|
  {
    if s != [] {
      assert s[0..] == s;
      assert Literal(s[1..], subs) by {
        forall i | 0 <= i < |s[1..]| ensures PlaceholderAt(s[1..][i..], subs).None? {
          assert s[1..][i..] == s[i + 1..];
        }
      }
      ExpandLiteral(s[1..], subs);
    }
  }

  /** Expansion distributes over a concatenation that starts with a brace-free text. */
  lemma {:induction false} ExpandAfterLiteral(a: string, b: string, subs: Substitutions)
    requires '{' !in a
    ensures Expand(a + b, subs) == a + Expand(b, subs)
    decreases |a|
  {
    if a != [] {
      assert (a + b)[0] == a[0];
      assert (a + b)[1..] == a[1..] + b;
      ExpandAfterLiteral(a[1..], b, subs);
    } else {
      assert a + b == b;
    }
  }

  /** Each placeholder, standing alone, becomes its value. */
  lemma ExpandPlaceholder(subs: Substitutions)
    ensures Expand(DotnetPathPlaceholder, subs) == subs.dotnetPath
    ensures Expand(WorkingDirPlaceholder, subs) == subs.workingDir
    ensures Expand(GlobalStoragePathPlaceholder, subs) == subs.globalStoragePath
  {
    assert DotnetPathPlaceholder[1] != WorkingDirPlaceholder[1];
    assert DotnetPathPlaceholder[1] != GlobalStoragePathPlaceholder[1];
    assert WorkingDirPlaceholder[1] != GlobalStoragePathPlaceholder[1];
    assert PlaceholderAt(DotnetPathPlaceholder, subs) == Some((subs.dotnetPath, |DotnetPathPlaceholder|));
    assert PlaceholderAt(WorkingDirPlaceholder, subs) == Some((subs.workingDir, |WorkingDirPlaceholder|));
    assert PlaceholderAt(GlobalStoragePathPlaceholder, subs)
        == Some((subs.globalStoragePath, |GlobalStoragePathPlaceholder|));
    assert DotnetPathPlaceholder[|DotnetPathPlaceholder|..] == [];
    assert WorkingDirPlaceholder[|WorkingDirPlaceholder|..] == [];
    assert GlobalStoragePathPlaceholder[|GlobalStoragePathPlaceholder|..] == [];
  }

  /** Arguments without placeholders keep their value and their relative order. */
  lemma ProcessArgumentsKeepsLiteralArguments(template: LaunchTemplate, workingDir: string, dotnetPath: string,
                                              globalStoragePath: string, i: nat)
    requires 0 < i < |template.args|
    requires Literal(template.args[i], Substitutions(workingDir, dotnetPath, globalStoragePath))
    ensures var r := ProcessArguments(template, workingDir, dotnetPath, globalStoragePath);
      r.Some? && r.value.args[i - 1] == template.args[i]
  {
    ExpandLiteral(template.args[i], Substitutions(workingDir, dotnetPath, globalStoragePath));
  }

  /** An argument that is exactly `{working_dir}` becomes the working directory passed in. */
  lemma ProcessArgumentsSubstitutesWorkingDir(template: LaunchTemplate, workingDir: string, dotnetPath: string,
                                              globalStoragePath: string, i: nat)
    requires 0 < i < |template.args| && template.args[i] == WorkingDirPlaceholder
    ensures var r := ProcessArguments(template, workingDir, dotnetPath, globalStoragePath);
      r.Some? && r.value.args[i - 1] == workingDir
  {
    ExpandPlaceholder(Substitutions(workingDir, dotnetPath, globalStoragePath));
  }

  /** Every argument after the command of the default shape expands as expected. */
  lemma DefaultShapeArguments(literals: seq<string>, args: seq<string>, subs: Substitutions)
    requires forall i :: 0 <= i < |literals| ==> '{' !in literals[i]
    requires args == [DotnetPathPlaceholder] + literals + [WorkingDirPlaceholder]
    ensures forall i :: 0 <= i < |literals| + 1 ==> Expand(args[i + 1], subs) == (literals + [subs.workingDir])[i]
  {
    ExpandPlaceholder(subs);
    forall i | 0 <= i < |literals| + 1 ensures Expand(args[i + 1], subs) == (literals + [subs.workingDir])[i] {
      if i < |literals| {
        assert args[i + 1] == literals[i];
      }
    }
  }

  /**
   * The shape of the extension's launch template: the `{dotnet_path}`
   * command, literal arguments, `{working_dir}` last and the global storage
   * path as working directory.
   */
  lemma ProcessArgumentsOfDefaultShape(literals: seq<string>, workingDir: string, dotnetPath: string,
                                       globalStoragePath: string)
    requires forall i :: 0 <= i < |literals| ==> '{' !in literals[i]
    ensures ProcessArguments(
      LaunchTemplate([DotnetPathPlaceholder] + literals + [WorkingDirPlaceholder], GlobalStoragePathPlaceholder),
      workingDir, dotnetPath, globalStoragePath)
      == Some(ProcessStart(dotnetPath, literals + [workingDir], globalStoragePath, map[]))
  {
    var subs := Substitutions(workingDir, dotnetPath, globalStoragePath);
    var args := [DotnetPathPlaceholder] + literals + [WorkingDirPlaceholder];
    var r := ProcessArguments(LaunchTemplate(args, GlobalStoragePathPlaceholder), workingDir, dotnetPath,
                              globalStoragePath);
    ExpandPlaceholder(subs);
    DefaultShapeArguments(literals, args, subs);
    assert r.value.args == literals + [workingDir];
  }

  /** The literal arguments of the test's template, and the template itself. */
  // Literal values arrive through `requires` so the verifier does not unfold
  // the functions applied to them eagerly; the example lemmas call this one.
  lemma TestTemplateLiterals(literals: seq<string>, workingDir: string)
    requires literals == ["tool", "run", "dotnet-interactive", "--", "stdio", "--working-dir"]
    ensures forall i :: 0 <= i < |literals| ==> '{' !in literals[i]
    ensures [DotnetPathPlaceholder] + literals + [WorkingDirPlaceholder]
      == ["{dotnet_path}", "tool", "run", "dotnet-interactive", "--", "stdio", "--working-dir", "{working_dir}"]
    ensures literals + [workingDir] == ["tool", "run", "dotnet-interactive", "--", "stdio", "--working-dir", workingDir]
  {
    assert '{' !in literals[0] && '{' !in literals[1] && '{' !in literals[2];
    assert '{' !in literals[3] && '{' !in literals[4] && '{' !in literals[5];
  }

  /** The test's template, expanded with any three values. */
  lemma ProcessArgumentsExample(workingDir: string, dotnetPath: string, globalStoragePath: string)
    ensures ProcessArguments(
      LaunchTemplate(["{dotnet_path}", "tool", "run", "dotnet-interactive", "--", "stdio", "--working-dir", "{working_dir}"],
                     "{global_storage_path}"),
      workingDir, dotnetPath, globalStoragePath)
      == Some(ProcessStart(
        dotnetPath,
        ["tool", "run", "dotnet-interactive", "--", "stdio", "--working-dir", workingDir],
        globalStoragePath,
        map[]))
  {
    var literals := ["tool", "run", "dotnet-interactive", "--", "stdio", "--working-dir"];
    TestTemplateLiterals(literals, workingDir);
    ProcessArgumentsOfDefaultShape(literals, workingDir, dotnetPath, globalStoragePath);
  }
}
