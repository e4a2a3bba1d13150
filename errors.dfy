/** The exceptions the modelled code can throw, as values. */
module Errors {
  /** The CAN error classes `can::Node::read` distinguishes (one exception class each). */
  datatype CanErrorKind =
    | TxTimeout
    | LostArbitration
    | ControllerProblem
    | ProtocolViolation
    | TransceiverStatus
    | NoAcknowledge
    | BusOff
    | BusError
    | ControllerRestarted

  datatype Error =
    | OutOfRange          // std::out_of_range (Message::setAt/getAs, std::stoul)
    | InvalidArgument     // std::invalid_argument (std::stoul without digits)
    | RuntimeError        // std::runtime_error (test/can_node.cpp)
    | Exception           // myactuator_rmd::Exception
    | ProtocolException   // myactuator_rmd::ProtocolException
    | ValueRangeException // myactuator_rmd::ValueRangeException
    | ParsingException    // myactuator_rmd_driver::ParsingException
    | CanError(kind: CanErrorKind)
}
