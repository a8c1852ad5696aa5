/**
 * The programs the analyzer shells out to and the plist parser it calls,
 * given as total functions the caller supplies.  What they compute is outside
 * the model; the model fixes only which bytes reach them and what is done
 * with their answers.
 */
module External {
  import opened Wrappers
  import opened Zip
  import opened Plist

  /** A parsed plist whose root is a dictionary: its pairs in their stored order. */
  type PlistDict = seq<(string, Value)>

  datatype Tools = Tools(
    /** `openssl x509 -inform DER -noout -subject -nameopt -esc_msb,utf8` on DER bytes. */
    x509Subject: seq<byte> -> string,
    /** `openssl x509 -inform DER -noout -startdate`. */
    x509StartDate: seq<byte> -> string,
    /** `openssl x509 -inform DER -noout -enddate`. */
    x509EndDate: seq<byte> -> string,
    /** `openssl smime -inform der -verify -noverify` on a provisioning profile; stderr dropped. */
    smimeUnwrap: seq<byte> -> string,
    /** `CFPropertyList::List.new(data: text)` then `native_types`; None when it raises. */
    parsePlistText: string -> Option<PlistDict>,
    /** `CFPropertyList::List.new(file: path)` then `native_types` on the extracted bytes. */
    parsePlistFile: seq<byte> -> Option<PlistDict>)
}
