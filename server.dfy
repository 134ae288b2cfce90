/**
 * The Server type of server.go: binding its sockets (plain or TLS), and the
 * sequential part of starting and stopping it.  Serving requests, the
 * goroutine that does so and the signal handler are outside the model; the
 * event that ends Start's wait is a parameter.
 */
module ServerLifecycle {
  import opened Wrappers
  import opened Sockets

  /** A certificate loaded from a certificate file and a key file. */
  datatype Certificate = Certificate(certFile: string, keyFile: string)

  /** The fields of tls.Config the server reads or writes. */
  class TlsConfig {
    var certificates: seq<Certificate>
    /** None stands for a nil slice, which is not the same as an empty one. */
    var nextProtos: Option<seq<string>>

    constructor (certificates: seq<Certificate>, nextProtos: Option<seq<string>>)
      ensures this.certificates == certificates && this.nextProtos == nextProtos
    {
      this.certificates := certificates;
      this.nextProtos := nextProtos;
    }
  }

  /** What srv.listener holds: a bound listener, possibly wrapped by tls.NewListener. */
  datatype Bound = Raw(inner: Listener) | Tls(inner: Listener, config: TlsConfig)

  datatype Failure =
    | SocketFailed(error: Error)        // from socketListen, or from closing the listener
    | TlsConfigRequired                 // "TLSConfig required"
    | NoCertificate                     // "TLSConfig has no certificate"
    | CertificateUnreadable(cert: Certificate) // tls.LoadX509KeyPair failed
    | ListenFirst                       // "Listen must be called before Start"
    | NotStarted                        // "Server was not started"
    | ServeFailed(reason: string)       // srv.Serve returned an error
    | NilListener                       // Stop on a listener a failed Listen reset: Go panics here

  /** What ends the wait in Start: Stop's send on the quit channel, or Serve returning. */
  datatype Wake = QuitReceived | ServeReturned(reason: string)

  /** The steps Stop takes, in order. */
  datatype StopStep = ClosingFlagged | ListenerClosed(listener: Bound) | QuitSent

  /** The address Listen binds: the configured one, or ":http" when none is. */
  function PlainAddress(addr: string): (r: string)
    ensures addr != "" ==> r == addr
    ensures addr == "" ==> r == ":http"
  {
    if addr == "" then ":http" else addr
  }

  /** The address ListenTLSWithConfig binds: the configured one, or ":https" when none is. */
  function TlsAddress(addr: string): (r: string)
    ensures addr != "" ==> r == addr
    ensures addr == "" ==> r == ":https"
  {
    if addr == "" then ":https" else addr
  }

  /** The default next protocols, installed only where there were none at all. */
  function DefaultNextProtos(protos: Option<seq<string>>): (r: Option<seq<string>>)
    ensures protos.None? ==> r == Some(["http/1.1"])
    ensures protos.Some? ==> r == protos
  {
    if protos.None? then Some(["http/1.1"]) else protos
  }

  /** The error of Start's select: a Serve error counts only when nobody is closing the server. */
  function ServeResult(wake: Wake, closing: bool): (r: Option<Failure>)
    ensures r.None? <==> wake.QuitReceived? || closing
    ensures r.Some? ==> r == Some(ServeFailed(wake.reason))
  {
    match wake
    case QuitReceived => None
    case ServeReturned(reason) => if closing then None else Some(ServeFailed(reason))
  }

  /**
   * What a listen-and-serve call evidently should report: the listen error
   * when binding fails, else what serving ends with.  ListenAndServe does so.
   */
  function ServeOutcome(listenErr: Option<Failure>, served: Option<Failure>): (r: Option<Failure>)
    ensures listenErr.Some? ==> r == listenErr
    ensures listenErr.None? ==> r == served
  {
    if listenErr.Some? then listenErr else served
  }

  /** ListenAndServeTLS and ListenAndServeTLSWithConfig as written: a listen error becomes nil. */
  function TlsServeOutcomeAsWritten(listenErr: Option<Failure>, served: Option<Failure>): (r: Option<Failure>)
    ensures listenErr.Some? ==> r.None?
    ensures listenErr.None? ==> r == served
  {
    if listenErr.Some? then None else served
  }

  /** A nil result from the intended outcome means binding succeeded. */
  lemma NilMeansListening(listenErr: Option<Failure>, served: Option<Failure>)
    requires ServeOutcome(listenErr, served).None?
    ensures listenErr.None?
  {
  }

  /** As written, a TLS server that could not bind reports success, unlike the intended outcome. */
  lemma TlsListenErrorSwallowed(listenErr: Failure, served: Option<Failure>)
    ensures TlsServeOutcomeAsWritten(Some(listenErr), served) == None
    ensures ServeOutcome(Some(listenErr), served) == Some(listenErr)
  {
  }

  class Server {
    /** http.Server.Addr */
    const addr: string
    /** http.Server.TLSConfig (null when unset) */
    var tlsConfig: TlsConfig?
    var listener: Option<Bound>
    var closing: bool
    /** srv.quit != nil: Start has got past its check. */
    var started: bool
    /** Steps Stop has taken, oldest first. */
    var stops: seq<StopStep>
    const os: Os

    constructor (addr: string, tlsConfig: TlsConfig?, os: Os)
      ensures this.addr == addr && this.tlsConfig == tlsConfig && this.os == os
      ensures listener.None? && !closing && !started && stops == []
    {
      this.addr := addr;
      this.tlsConfig := tlsConfig;
      this.os := os;
      listener := None;
      closing := false;
      started := false;
      stops := [];
    }

    /** Listen: binds the address; a failure leaves no listener, even if there was one. */
    method Listen() returns (err: Option<Failure>)
      modifies this, os
      ensures var (w, r) := SocketListenSpec(old(os.world), os.faults, PlainAddress(addr));
        && os.world == w
        && (r.Ok? ==> listener == Some(Raw(r.value)) && err.None?)
        && (r.Err? ==> listener.None? && err == Some(SocketFailed(r.error)))
      ensures tlsConfig == old(tlsConfig) && closing == old(closing)
      ensures started == old(started) && stops == old(stops)
    {
      var a := addr;
      if a == "" {
        a := ":http";
      }
      var r := SocketListen(os, a);
      if r.Ok? {
        listener := Some(Raw(r.value));
        err := None;
      } else {
        listener := None;
        err := Some(SocketFailed(r.error));
      }
    }

    /**
     * ListenTLSWithConfig: rejects a missing config or one without
     * certificates before binding anything, installs the default next
     * protocols in the caller's config, and on success wraps the listener.
     */
    method ListenTLSWithConfig(config: TlsConfig?) returns (err: Option<Failure>)
      modifies this, os, config
      ensures config == null ==> err == Some(TlsConfigRequired) && os.world == old(os.world) && listener == old(listener)
      ensures config != null && old(config.certificates) == [] ==>
        && err == Some(NoCertificate) && os.world == old(os.world) && listener == old(listener)
        && config.nextProtos == old(config.nextProtos)
      ensures config != null && old(config.certificates) != [] ==>
        var (w, r) := SocketListenSpec(old(os.world), os.faults, TlsAddress(addr));
        && config.nextProtos == DefaultNextProtos(old(config.nextProtos))
        && os.world == w
        && (r.Ok? ==> listener == Some(Tls(r.value, config)) && err.None?)
        && (r.Err? ==> listener == old(listener) && err == Some(SocketFailed(r.error)))
      ensures config != null ==> config.certificates == old(config.certificates)
      ensures tlsConfig == old(tlsConfig) && closing == old(closing)
      ensures started == old(started) && stops == old(stops)
    {
      var a := addr;
      if a == "" {
        a := ":https";
      }
      if config == null {
        return Some(TlsConfigRequired);
      }
      if |config.certificates| == 0 {
        return Some(NoCertificate);
      }
      if config.nextProtos.None? {
        config.nextProtos := Some(["http/1.1"]);
      }
      var r := SocketListen(os, a);
      if r.Ok? {
        listener := Some(Tls(r.value, config));
      } else {
        return Some(SocketFailed(r.error));
      }
      return None;
    }

    /**
     * ListenTLS: a copy of the configured TLS settings (or empty ones) whose
     * certificates are replaced by the one loaded from the two files;
     * `loadFails` says whether loading fails.  The server's own config is
     * never changed.
     */
    method ListenTLS(certFile: string, keyFile: string, loadFails: bool) returns (err: Option<Failure>, config: TlsConfig)
      modifies this, os
      ensures fresh(config)
      ensures config.certificates == [Certificate(certFile, keyFile)]
      ensures loadFails ==>
        && err == Some(CertificateUnreadable(Certificate(certFile, keyFile)))
        && os.world == old(os.world) && listener == old(listener)
      ensures !loadFails ==>
        var (w, r) := SocketListenSpec(old(os.world), os.faults, TlsAddress(addr));
        && config.nextProtos == DefaultNextProtos(if old(tlsConfig) == null then None else old(tlsConfig.nextProtos))
        && os.world == w
        && (r.Ok? ==> listener == Some(Tls(r.value, config)) && err.None?)
        && (r.Err? ==> listener == old(listener) && err == Some(SocketFailed(r.error)))
      ensures tlsConfig == old(tlsConfig)
      ensures tlsConfig != null ==>
        && tlsConfig.certificates == old(tlsConfig.certificates)
        && tlsConfig.nextProtos == old(tlsConfig.nextProtos)
      ensures closing == old(closing) && started == old(started) && stops == old(stops)
    {
      config := new TlsConfig([], None);
      if tlsConfig != null {
        config.certificates := tlsConfig.certificates;
        config.nextProtos := tlsConfig.nextProtos;
      }
      var cert := Certificate(certFile, keyFile);
      config.certificates := [cert];
      if loadFails {
        return Some(CertificateUnreadable(cert)), config;
      }
      err := ListenTLSWithConfig(config);
    }

    /** Start, up to the wait: it needs a bound listener. */
    method Start() returns (err: Option<Failure>)
      modifies this
      ensures old(listener).None? ==> err == Some(ListenFirst) && started == old(started)
      ensures old(listener).Some? ==> err.None? && started
      ensures listener == old(listener) && closing == old(closing) && stops == old(stops)
      ensures tlsConfig == old(tlsConfig)
    {
      if listener.None? {
        return Some(ListenFirst);
      }
      started := true;
      return None;
    }

    /** The end of Start's wait, read against the closing flag as it stands then. */
    method AwaitServe(wake: Wake) returns (err: Option<Failure>)
      ensures err == ServeResult(wake, closing)
    {
      match wake {
        case QuitReceived =>
          err := None;
        case ServeReturned(reason) =>
          err := Some(ServeFailed(reason));
          if closing {
            err := None;
          }
      }
    }

    /** Stop: flags the server as closing, then closes the listener, then signals Start. */
    method Stop() returns (err: Option<Failure>)
      modifies this, os
      ensures !old(started) ==>
        && err == Some(NotStarted) && stops == old(stops) && closing == old(closing)
        && os.world == old(os.world)
      ensures old(started) && old(listener).None? ==>
        && err == Some(NilListener) && closing
        && stops == old(stops) + [ClosingFlagged] && os.world == old(os.world)
      ensures old(started) && old(listener).Some? ==>
        var (w, closeErr) := CloseStep(old(os.world), old(listener).value.inner);
        && closing
        && os.world == w
        && stops == old(stops) + [ClosingFlagged, ListenerClosed(old(listener).value), QuitSent]
        && err == (if closeErr.Some? then Some(SocketFailed(closeErr.value)) else None)
      ensures listener == old(listener) && started == old(started) && tlsConfig == old(tlsConfig)
    {
      if !started {
        return Some(NotStarted);
      }
      closing := true;
      stops := stops + [ClosingFlagged];
      if listener.None? {
        return Some(NilListener);
      }
      var closeErr := os.Close(listener.value.inner);
      stops := stops + [ListenerClosed(listener.value)];
      stops := stops + [QuitSent];
      err := if closeErr.Some? then Some(SocketFailed(closeErr.value)) else None;
    }

    /** ListenAndServe: Listen, then Start and its wait; a listen error is returned. */
    method ListenAndServe(wake: Wake) returns (err: Option<Failure>)
      modifies this, os
      ensures var (w, r) := SocketListenSpec(old(os.world), os.faults, PlainAddress(addr));
        && os.world == w
        && (r.Ok? ==> listener == Some(Raw(r.value)) && started)
        && (r.Err? ==> listener.None? && started == old(started))
        && err == ServeOutcome(if r.Err? then Some(SocketFailed(r.error)) else None, ServeResult(wake, old(closing)))
      ensures tlsConfig == old(tlsConfig) && closing == old(closing) && stops == old(stops)
    {
      err := Listen();
      if err.Some? {
        return;
      }
      err := ServeUntilSignalled(wake);
    }

    /** ListenAndServeTLS as written: a failure to load or to bind is reported as nil. */
    method ListenAndServeTLS(certFile: string, keyFile: string, loadFails: bool, wake: Wake) returns (err: Option<Failure>)
      modifies this, os
      ensures loadFails ==>
        && err.None? && os.world == old(os.world)
        && listener == old(listener) && started == old(started)
      ensures !loadFails ==>
        var (w, r) := SocketListenSpec(old(os.world), os.faults, TlsAddress(addr));
        && os.world == w
        && (r.Ok? ==>
          && listener.Some? && listener.value.Tls? && listener.value.inner == r.value && started
          && fresh(listener.value.config)
          && listener.value.config.certificates == [Certificate(certFile, keyFile)]
          && listener.value.config.nextProtos == DefaultNextProtos(if old(tlsConfig) == null then None else old(tlsConfig.nextProtos)))
        && (r.Err? ==> listener == old(listener) && started == old(started))
        && err == TlsServeOutcomeAsWritten(if r.Err? then Some(SocketFailed(r.error)) else None, ServeResult(wake, old(closing)))
      ensures tlsConfig == old(tlsConfig) && closing == old(closing) && stops == old(stops)
      ensures tlsConfig != null ==>
        && tlsConfig.certificates == old(tlsConfig.certificates)
        && tlsConfig.nextProtos == old(tlsConfig.nextProtos)
    {
      var listenErr, _ := ListenTLS(certFile, keyFile, loadFails);
      if listenErr.Some? {
        return None;
      }
      err := ServeUntilSignalled(wake);
    }

    /** ListenAndServeTLSWithConfig as written: an invalid config or failure to bind is reported as nil. */
    method ListenAndServeTLSWithConfig(config: TlsConfig?, wake: Wake) returns (err: Option<Failure>)
      modifies this, os, config
      ensures config == null || old(config.certificates) == [] ==>
        && err.None? && os.world == old(os.world)
        && listener == old(listener) && started == old(started)
      ensures config != null && old(config.certificates) == [] ==> config.nextProtos == old(config.nextProtos)
      ensures config != null && old(config.certificates) != [] ==>
        var (w, r) := SocketListenSpec(old(os.world), os.faults, TlsAddress(addr));
        && config.nextProtos == DefaultNextProtos(old(config.nextProtos))
        && os.world == w
        && (r.Ok? ==> listener == Some(Tls(r.value, config)) && started)
        && (r.Err? ==> listener == old(listener) && started == old(started))
        && err == TlsServeOutcomeAsWritten(if r.Err? then Some(SocketFailed(r.error)) else None, ServeResult(wake, old(closing)))
      ensures config != null ==> config.certificates == old(config.certificates)
      ensures tlsConfig == old(tlsConfig) && closing == old(closing) && stops == old(stops)
    {
      var listenErr := ListenTLSWithConfig(config);
      if listenErr.Some? {
        return None;
      }
      err := ServeUntilSignalled(wake);
    }

    /** serveUntilSignalled without its signal handler: Start and, once it got past its check, its wait. */
    method ServeUntilSignalled(wake: Wake) returns (err: Option<Failure>)
      modifies this
      ensures err == if old(listener).None? then Some(ListenFirst) else ServeResult(wake, old(closing))
      ensures old(listener).Some? ==> started
      ensures old(listener).None? ==> started == old(started)
      ensures listener == old(listener) && closing == old(closing) && stops == old(stops)
      ensures tlsConfig == old(tlsConfig)
    {
      err := Start();
      if err.Some? {
        return;
      }
      err := AwaitServe(wake);
    }
  }
}
