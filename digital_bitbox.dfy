/** `DigitalBitboxWallet.parseErrorObject` of libs/wallet/digitalbitbox.js: the message
    shown for a failed Digital Bitbox request. */
module DigitalBitbox {
  import opened Wrappers

  /** The error object; a missing `errorCode` is `None`. Its other fields are seen only by
      the device library's parser. */
  datatype ErrorObject = ErrorObject(errorCode: Option<int>, fields: map<string, string>)

  const UnsupportedConfiguration := "Your configuration is not supported"
  const IncorrectDevice := "Incorrect device for this wallet"
  const AuthenticationTimedOut := "Authentication timed out, please try again"
  const UnknownError := "Unknown error, please try again"

  /** `err.errorCode` is truthy. */
  predicate HasU2fCode(err: ErrorObject) {
    err.errorCode.Some? && err.errorCode.value != 0
  }

  /** The U2F client error codes 3, 4 and 5 have their own messages; every other non-zero
      code is an unknown error. */
  function U2fMessage(code: int): string {
    if code == 3 then UnsupportedConfiguration
    else if code == 4 then IncorrectDevice
    else if code == 5 then AuthenticationTimedOut
    else UnknownError
  }

  /** `parseErrorObject(err)`, with the device library's `parseError` given. */
  function ParseErrorObject(err: ErrorObject, parseError: ErrorObject -> string): string {
    if HasU2fCode(err) then U2fMessage(err.errorCode.value) else parseError(err)
  }

  /** Codes 3, 4 and 5 map to their messages, any other truthy code to the unknown error,
      and a missing or zero code is left to the device library. */
  lemma ParseErrorObjectSpec(err: ErrorObject, parseError: ErrorObject -> string)
    ensures err.errorCode == Some(3) ==> ParseErrorObject(err, parseError) == "Your configuration is not supported"
    ensures err.errorCode == Some(4) ==> ParseErrorObject(err, parseError) == "Incorrect device for this wallet"
    ensures err.errorCode == Some(5) ==> ParseErrorObject(err, parseError) == "Authentication timed out, please try again"
    ensures HasU2fCode(err) && err.errorCode.value !in {3, 4, 5} ==>
      ParseErrorObject(err, parseError) == "Unknown error, please try again"
    ensures !HasU2fCode(err) ==> ParseErrorObject(err, parseError) == parseError(err)
  {
  }

  /** The device library is consulted only without a truthy code. */
  lemma U2fCodeIgnoresDeviceParser(err: ErrorObject, p: ErrorObject -> string, q: ErrorObject -> string)
    requires HasU2fCode(err)
    ensures ParseErrorObject(err, p) == ParseErrorObject(err, q)
  {
  }
}
