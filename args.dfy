/** pkg/args/args.go: the arguments of `act exec [profile] -- [command]`. */
module Args {
  import opened Wrappers
  import opened Errors

  /** IsValid: the arguments split into a profile, a command and at least one more argument. */
  function IsValid(args: seq<string>): (valid: bool)
    ensures valid <==> exists profile, command, rest :: |rest| >= 1 && args == [profile, command] + rest
  {
    if |args| >= 3 then
      assert args == [args[0], args[1]] + args[2..];
      true
    else
      false
  }

  /** The parsed arguments; parseArgument fills in the fields of an existing record. */
  class Argument {
    var Profile: string
    var Command: string
    var Args: seq<string>

    /** `Argument{}`: every field at its zero value. */
    constructor ()
      ensures Profile == "" && Command == "" && Args == []
    {
      Profile, Command, Args := "", "", [];
    }

    /** parseArgument: the first argument is the profile, the second the command, the rest its arguments. */
    method ParseArgument(args: seq<string>)
      requires |args| >= 2
      modifies this
      ensures Profile == args[0] && Command == args[1] && Args == args[2..]
      ensures [Profile, Command] + Args == args
    {
      Profile := args[0];
      Command := args[1];
      Args := args[2..];
    }
  }

  /**
   * Parse: the usage error and no record when IsValid fails; otherwise a new
   * record that splits the arguments without losing any.
   */
  method Parse(args: seq<string>) returns (a: Argument?, err: Option<Error>)
    ensures err.None? <==> IsValid(args)
    ensures err.Some? ==> a == null && err == Some(Usage)
    ensures err.None? ==> a != null && fresh(a)
    ensures err.None? ==> a.Profile == args[0] && a.Command == args[1] && a.Args == args[2..]
    ensures err.None? ==> [a.Profile, a.Command] + a.Args == args && |a.Args| >= 1
  {
    var parsed := new Argument();
    if !IsValid(args) {
      return null, Some(Usage);
    }
    parsed.ParseArgument(args);
    return parsed, None;
  }
}
