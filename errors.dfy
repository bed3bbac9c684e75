/** The errors the modelled code can return. Each constructor stands for one message of the source. */
module Errors {

  datatype Error =
    /** `wrong IP address: <ip>` */
    | WrongIPAddress(ip: string)
    /** `address cannot has / more than once: <ip>` */
    | SlashMoreThanOnce(ip: string)
    /** `cidr base should be between 0 and 32: <ip>` */
    | CidrBaseRange(ip: string)
    /** `each class number should be between 0 and 255: <ip>` */
    | ClassNumberRange(ip: string)
    /** strconv.Atoi: parsing <input>: invalid syntax */
    | AtoiSyntax(input: string)
    /** strconv.Atoi: parsing <input>: value out of range */
    | AtoiRange(input: string)
    /** `profile does not exist: <profile>` */
    | ProfileDoesNotExist(profile: string)
    /** `<target> is not registered in the assume list` */
    | NotRegistered(target: string)
    /** the message used when no configuration is loaded */
    | NoConfiguration
    /** `token is wrong` */
    | TokenWrong
    /** `usage: act exec [profile] -- [command]` */
    | Usage
    /** `your access key is expired. ...` */
    | AccessKeyExpired
    /** `your access key configuration is wrong` */
    | AccessKeyConfigurationWrong
    /** `you canceled ACL selection` */
    | SelectionCanceled
    /** `stop process` */
    | StopProcess
    /** the INI library's error for a missing section */
    | SectionNotFound(section: string)
    /** the IAM service refusing to delete a key the user does not hold */
    | NoSuchAccessKey(id: string)
    /** the IAM service refusing a third access key for one user */
    | AccessKeyLimitExceeded
    /** any other error, passed through verbatim (AWS calls, decoding, file and terminal I/O) */
    | External(message: string)
}
